/** Policies for paths, inherited from the directories above them: a list that is kept
    sorted by path, and one pass over it. */
module PathPolicies {
  import opened Wrappers
  import opened Base36

  /** Byte strings, by the codes of their bytes. */
  type Bytes = seq<nat>

  const SLASH: nat := 47
  const COLON: nat := 58
  const COMMA: nat := 44
  const MINUS: nat := 45
  const ROOT: Bytes := [SLASH]
  const BLOCK: Bytes := [MINUS]

  /** An entry of the list.  An empty field says nothing. */
  datatype Policy = Policy(path: Bytes, labelText: Bytes, account: Bytes, tags: Bytes, watch: Bytes, copy: Bytes,
                           updated: Bytes) {
    predicate Null() {
      labelText == [] && account == [] && tags == [] && watch == [] && copy == [] && updated == []
    }

    predicate Plain() {
      && COLON !in labelText && COLON !in account && COLON !in tags && COLON !in watch && COLON !in copy
      && COLON !in updated
    }
  }

  // ----- The list

  /** Paths are unique and sorted, so directories come before what is in them. */
  ghost predicate Sorted(list: seq<Policy>) {
    forall i, j :: 0 <= i < j < |list| ==> LexLess(list[i].path, list[j].path)
  }

  function Stripped(path: Bytes): Bytes {
    if path != [] && path[|path| - 1] == SLASH then Stripped(path[..|path| - 1]) else path
  }

  function Normal(path: Bytes): Bytes {
    if Stripped(path) == [] then ROOT else Stripped(path)
  }

  /** Sorting by path. */
  function Insert(list: seq<Policy>, e: Policy): (r: seq<Policy>) {
    if list == [] || LexLess(e.path, list[0].path) then [e] + list else [list[0]] + Insert(list[1..], e)
  }

  function SortEntries(list: seq<Policy>): (r: seq<Policy>) {
    if list == [] then [] else Insert(SortEntries(list[..|list| - 1]), list[|list| - 1])
  }

  predicate HasPath(list: seq<Policy>, p: Bytes) {
    exists i :: 0 <= i < |list| && list[i].path == p
  }

  lemma {:induction false} InsertSorted(list: seq<Policy>, e: Policy)
    requires Sorted(list) && !HasPath(list, e.path)
    ensures Sorted(Insert(list, e)) && forall f :: f in Insert(list, e) <==> f == e || f in list
  {
    if list != [] {
      assert list == [list[0]] + list[1..];
      assert list[0].path != e.path;
      LexTotal(e.path, list[0].path);
      if LexLess(e.path, list[0].path) {
        forall i | 0 <= i < |list| ensures LexLess(e.path, list[i].path) {
          if i > 0 { LexTransitive(e.path, list[0].path, list[i].path); }
        }
      } else {
        var rest := list[1..];
        assert forall i :: 0 <= i < |rest| ==> rest[i] == list[i + 1];
        InsertSorted(rest, e);
        assert forall f :: f in Insert(rest, e) ==> LexLess(list[0].path, f.path);
      }
    }
  }

  lemma {:induction false} SortOfSorted(list: seq<Policy>)
    requires Sorted(list)
    ensures SortEntries(list) == list
  {
    if list != [] {
      var init, e := list[..|list| - 1], list[|list| - 1];
      SortOfSorted(init);
      InsertLast(init, e);
      assert list == init + [e];
    }
  }

  lemma {:induction false} InsertLast(list: seq<Policy>, e: Policy)
    requires forall i :: 0 <= i < |list| ==> LexLess(list[i].path, e.path)
    ensures Insert(list, e) == list + [e]
  {
    if list != [] {
      LexTotal(list[0].path, e.path);
      InsertLast(list[1..], e);
    }
  }

  /** Appending a new path and sorting inserts it. */
  lemma SortAfterAppend(list: seq<Policy>, e: Policy)
    requires Sorted(list) && !HasPath(list, e.path)
    ensures SortEntries(list + [e]) == Insert(list, e)
    ensures Sorted(Insert(list, e)) && forall f :: f in Insert(list, e) <==> f == e || f in list
  {
    assert (list + [e])[..|list|] == list;
    SortOfSorted(list);
    InsertSorted(list, e);
  }

  function Or(a: Bytes, b: Bytes): Bytes {
    if a != [] then a else b
  }

  /** What a partial set stores; a time of update is not taken over. */
  function Filled(given: Policy, prior: Policy): Policy {
    Policy(given.path, Or(given.labelText, prior.labelText), Or(given.account, prior.account), Or(given.tags, prior.tags),
           Or(given.watch, prior.watch), Or(given.copy, prior.copy), given.updated)
  }

  datatype Outcome = Rejected | Kept(stored: bool)

  // ----- What an entry does to a policy

  /** The policy of a path; tags are what is left of the lists met on the way. */
  datatype Result = Result(labelText: Option<Bytes>, account: Option<Bytes>, tags: Option<Bytes>, watch: Option<Bytes>,
                           copy: Option<Bytes>, updated: Option<Bytes>)

  const NOTHING := Result(None, None, None, None, None, None)

  /** A field of an entry over what is there: "-" takes it away. */
  function Over(was: Option<Bytes>, field: Bytes, inherit: bool): Option<Bytes> {
    if inherit && field == BLOCK then None else if field != [] then Some(field) else was
  }

  function OverTags(was: Option<Bytes>, field: Bytes, inherit: bool): Option<Bytes> {
    if inherit && field == BLOCK then None else if field != [] then Some(CombinedTags(was, field, inherit)) else was
  }

  /** An entry of a directory above. */
  function Inherit(was: Result, e: Policy): Result {
    was.(account := Over(was.account, e.account, true), tags := OverTags(was.tags, e.tags, true),
         watch := Over(was.watch, e.watch, true), copy := Over(was.copy, e.copy, true))
  }

  /** The path's own entry. */
  function Own(was: Result, e: Policy, inherit: bool): Result {
    Result(Over(was.labelText, e.labelText, inherit), Over(was.account, e.account, inherit),
           OverTags(was.tags, e.tags, inherit), Over(was.watch, e.watch, inherit), Over(was.copy, e.copy, inherit),
           Over(was.updated, e.updated, inherit))
  }

  // ----- Tags

  function SplitTags(s: Bytes): (r: seq<Bytes>)
    ensures r != []
  {
    if s == [] then [[]]
    else
      var rest := SplitTags(s[1..]);
      if s[0] == COMMA then [[]] + rest else [[s[0]] + rest[0]] + rest[1..]
  }

  function JoinTags(tags: seq<Bytes>): Bytes {
    if tags == [] then [] else if |tags| == 1 then tags[0] else tags[0] + [COMMA] + JoinTags(tags[1..])
  }

  function InsertTag(tags: seq<Bytes>, t: Bytes): (r: seq<Bytes>)
    ensures forall x :: x in r <==> x == t || x in tags
  {
    if tags == [] || LexLess(t, tags[0]) then [t] + tags else [tags[0]] + InsertTag(tags[1..], t)
  }

  function SortTags(tags: seq<Bytes>): (r: seq<Bytes>)
    ensures forall x :: x in r <==> x in tags
  {
    if tags == [] then [] else
      assert tags == tags[..|tags| - 1] + [tags[|tags| - 1]];
      InsertTag(SortTags(tags[..|tags| - 1]), tags[|tags| - 1])
  }

  function NoBlocks(tags: seq<Bytes>): (r: seq<Bytes>)
    ensures forall x :: x in r <==> x in tags && x != BLOCK
  {
    if tags == [] then [] else (if tags[0] == BLOCK then [] else [tags[0]]) + NoBlocks(tags[1..])
  }

  function Unique(tags: seq<Bytes>): (r: seq<Bytes>)
    ensures forall x :: x in r <==> x in tags
  {
    if tags == [] then [] else
      var rest := Unique(tags[1..]);
      if tags[0] in rest then rest else [tags[0]] + rest
  }

  function CombinedTags(was: Option<Bytes>, field: Bytes, inherit: bool): Bytes {
    var tags := SplitTags(field);
    if !inherit then JoinTags(SortTags(tags))
    else if BLOCK in tags || was.None? || was.value == [] then JoinTags(SortTags(NoBlocks(tags)))
    else JoinTags(SortTags(NoBlocks(Unique(tags + SplitTags(was.value)))))
  }

  /** The tags of a list, without empty ones. */
  function TagSet(tags: Option<Bytes>): set<Bytes> {
    if tags.None? then {} else (set t | t in SplitTags(tags.value)) - {[]}
  }

  lemma {:induction false} TagsHaveNoComma(s: Bytes)
    ensures forall t :: t in SplitTags(s) ==> 44 !in t
  {
    if s != [] {
      TagsHaveNoComma(s[1..]);
    }
  }

  lemma {:induction false} SplitOfJoin(tags: seq<Bytes>)
    requires forall t :: t in tags ==> 44 !in t
    ensures SplitTags(JoinTags(tags)) == if tags == [] then [[]] else tags
  {
    if |tags| == 1 {
      SplitOne(tags[0]);
      assert tags == [tags[0]];
    } else if tags != [] {
      SplitOfJoin(tags[1..]);
      SplitHead(tags[0], JoinTags(tags[1..]));
      assert tags == [tags[0]] + tags[1..];
    }
  }

  lemma {:induction false} SplitOne(t: Bytes)
    requires COMMA !in t
    ensures SplitTags(t) == [t]
  {
    if t != [] {
      SplitOne(t[1..]);
      assert [t[0]] + t[1..] == t;
    }
  }

  lemma {:induction false} SplitHead(t: Bytes, rest: Bytes)
    requires COMMA !in t
    ensures SplitTags(t + [COMMA] + rest) == [t] + SplitTags(rest)
  {
    var s := t + [COMMA] + rest;
    if t == [] {
      assert s[1..] == rest;
    } else {
      SplitHead(t[1..], rest);
      assert s[1..] == t[1..] + [COMMA] + rest;
      assert [t[0]] + t[1..] == t;
    }
  }

  lemma InTagSet(tags: Option<Bytes>, t: Bytes)
    ensures t in TagSet(tags) <==> tags.Some? && t != [] && t in SplitTags(tags.value)
  {}

  /** The tags that an entry with this field leaves, before they are joined. */
  function Wanted(was: Option<Bytes>, field: Bytes): seq<Bytes> {
    var tags := SplitTags(field);
    if BLOCK in tags || was.None? || was.value == [] then tags else Unique(tags + SplitTags(was.value))
  }

  lemma CombinedSplit(was: Option<Bytes>, field: Bytes, t: Bytes)
    requires t != []
    ensures t in SplitTags(CombinedTags(was, field, true)) <==> t in Wanted(was, field) && t != BLOCK
  {
    var wanted := Wanted(was, field);
    TagsHaveNoComma(field);
    if was.Some? { TagsHaveNoComma(was.value); }
    hide SplitTags, JoinTags, SortTags, NoBlocks, Unique;
    SplitOfJoin(SortTags(NoBlocks(wanted)));
  }

  lemma EmptyTags()
    ensures SplitTags([]) == [[]] && SplitTags(BLOCK) == [BLOCK]
  {
    SplitOne(BLOCK);
  }

  /** Tags add up from directory to directory, and "-" among them starts again. */
  lemma TagsAddUp(was: Option<Bytes>, field: Bytes)
    requires BLOCK !in TagSet(was)
    ensures TagSet(OverTags(was, field, true)) ==
      (if BLOCK in SplitTags(field) then {} else TagSet(was)) + TagSet(Some(field)) - {BLOCK}
  {
    hide SplitTags, TagSet, CombinedTags, Unique;
    EmptyTags();
    InTagSet(was, BLOCK);
    var after := OverTags(was, field, true);
    forall t: Bytes
      ensures t in TagSet(after) <==>
              t in (if BLOCK in SplitTags(field) then {} else TagSet(was)) + TagSet(Some(field)) - {BLOCK}
    {
      InTagSet(was, t);
      InTagSet(after, t);
      InTagSet(Some(field), t);
      if t != [] { CombinedSplit(was, field, t); }
    }
  }

  // ----- Inheritance

  /** path lies below q. */
  predicate Below(path: Bytes, q: Bytes) {
    q + [SLASH] <= path
  }

  function LastSlash(path: Bytes): (i: nat)
    requires SLASH in path
    ensures i < |path| && path[i] == SLASH && SLASH !in path[i + 1..]
  {
    if path[|path| - 1] == SLASH then |path| - 1
    else
      assert path == path[..|path| - 1] + [path[|path| - 1]];
      var i := LastSlash(path[..|path| - 1]);
      assert path[i + 1..] == path[..|path| - 1][i + 1..] + [path[|path| - 1]];
      i
  }

  function EntryOf(list: seq<Policy>, p: Bytes): (e: Policy)
    requires HasPath(list, p)
    ensures e in list && e.path == p
  {
    if list[0].path == p then list[0] else EntryOf(list[1..], p)
  }

  /** What a path inherits: what its directory inherits, and the directory's entry. */
  function Inherited(list: seq<Policy>, path: Bytes): Result
    decreases |path|
  {
    if SLASH !in path then NOTHING
    else
      var dir := path[..LastSlash(path)];
      var above := Inherited(list, dir);
      if HasPath(list, dir) then Inherit(above, EntryOf(list, dir)) else above
  }

  /** What one pass over the list collects. */
  function Pass(list: seq<Policy>, path: Bytes): Result {
    if list == [] then NOTHING
    else
      var before, e := Pass(list[..|list| - 1], path), list[|list| - 1];
      if Below(path, e.path) then Inherit(before, e) else before
  }

  /** The policy of a path. */
  function PolicyOf(list: seq<Policy>, path: Bytes, inherit: bool): Result {
    var above := if inherit then Inherited(list, path) else NOTHING;
    if HasPath(list, path) then Own(above, EntryOf(list, path), inherit) else above
  }

  lemma {:induction false} PrefixIsLess(a: Bytes, b: Bytes)
    requires b != []
    ensures LexLess(a, a + b)
  {
    if a != [] {
      PrefixIsLess(a[1..], b);
      assert (a + b)[1..] == a[1..] + b;
    }
  }

  lemma BelowIsGreater(path: Bytes, q: Bytes)
    requires Below(path, q)
    ensures LexLess(q, path)
  {
    PrefixIsLess(q, path[|q|..]);
    assert q + path[|q|..] == path;
  }

  /** What lies above a path is its directory and what lies above that. */
  lemma AboveMeans(path: Bytes, q: Bytes)
    ensures SLASH !in path ==> !Below(path, q)
    ensures SLASH in path ==> (Below(path, q) <==> q == path[..LastSlash(path)] || Below(path[..LastSlash(path)], q))
  {
    if Below(path, q) {
      assert path[|q|] == SLASH;
    }
    if SLASH in path {
      var i := LastSlash(path);
      if Below(path, q) {
        assert forall k :: i < k < |path| ==> path[k] == path[i + 1..][k - i - 1];
        assert path[..i][..|q|] == path[..|q|];
        if |q| < i { assert q + [SLASH] == path[..i][..|q| + 1]; }
      }
      if q == path[..i] { assert q + [SLASH] == path[..i + 1]; }
    }
  }

  lemma HasPathSnoc(list: seq<Policy>, e: Policy, p: Bytes)
    ensures HasPath(list + [e], p) <==> HasPath(list, p) || e.path == p
  {
    if i :| 0 <= i < |list| && list[i].path == p { assert (list + [e])[i].path == p; }
    assert (list + [e])[|list|] == e;
  }

  lemma {:induction false} EntryIs(list: seq<Policy>, e: Policy)
    requires Sorted(list) && e in list
    ensures HasPath(list, e.path) && EntryOf(list, e.path) == e
  {
    var k :| 0 <= k < |list| && list[k] == e;
    assert list[k].path == e.path;
    if k > 0 {
      LexTotal(list[0].path, e.path);
      assert list[1..][k - 1] == e;
      assert forall i :: 0 <= i < |list[1..]| ==> list[1..][i] == list[i + 1];
      EntryIs(list[1..], e);
    }
  }

  /** A pass for a path is a pass for its directory, with the directory's entry last. */
  lemma {:induction false} PassOfDirectory(list: seq<Policy>, path: Bytes)
    requires Sorted(list) && SLASH in path
    ensures var dir := path[..LastSlash(path)];
            Pass(list, path) == if HasPath(list, dir) then Inherit(Pass(list, dir), EntryOf(list, dir)) else Pass(list, dir)
  {
    if list != [] {
      var dir := path[..LastSlash(path)];
      var init, e := list[..|list| - 1], list[|list| - 1];
      assert list == init + [e];
      PassOfDirectory(init, path);
      AboveMeans(path, e.path);
      HasPathSnoc(init, e, dir);
      if HasPath(init, dir) {
        DirectoryComesLast(init, e, dir);
      } else if e.path == dir {
        EntryIs(list, e);
      }
    }
  }

  lemma DirectoryComesLast(init: seq<Policy>, e: Policy, dir: Bytes)
    requires Sorted(init + [e]) && HasPath(init, dir)
    ensures e.path != dir && !Below(dir, e.path)
    ensures HasPath(init + [e], dir) && EntryOf(init + [e], dir) == EntryOf(init, dir)
  {
    var list := init + [e];
    var i :| 0 <= i < |init| && init[i].path == dir;
    assert list[i] == init[i] && LexLess(list[i].path, list[|init|].path);
    LexTotal(dir, e.path);
    if Below(dir, e.path) { BelowIsGreater(dir, e.path); }
    assert Sorted(init) by { assert forall k :: 0 <= k < |init| ==> init[k] == list[k]; }
    EntryIs(init, EntryOf(init, dir));
    EntryIs(list, EntryOf(init, dir));
  }

  /** Because directories come first in the list, one pass finds what the recursive
      definition says. */
  lemma {:induction false} PassIsInherited(list: seq<Policy>, path: Bytes)
    requires Sorted(list)
    ensures Pass(list, path) == Inherited(list, path)
    decreases |path|
  {
    if SLASH in path {
      PassIsInherited(list, path[..LastSlash(path)]);
      PassOfDirectory(list, path);
    } else {
      NothingAbove(list, path);
    }
  }

  lemma {:induction false} NothingAbove(list: seq<Policy>, path: Bytes)
    requires SLASH !in path
    ensures Pass(list, path) == NOTHING
  {
    if list != [] {
      NothingAbove(list[..|list| - 1], path);
      AboveMeans(path, list[|list| - 1].path);
    }
  }

  /** After a path's own entry there is nothing for it to inherit, so the pass may stop
      there. */
  lemma {:induction false} PassStopsAtOwn(list: seq<Policy>, path: Bytes, n: nat)
    requires Sorted(list) && n <= |list| && HasPath(list[..n], path)
    ensures Pass(list, path) == Pass(list[..n], path)
  {
    if n < |list| {
      var init, e := list[..|list| - 1], list[|list| - 1];
      assert list == init + [e] && init[..n] == list[..n];
      PassStopsAtOwn(init, path, n);
      var i :| 0 <= i < n && list[..n][i].path == path;
      assert init[i].path == path;
      DirectoryComesLast(init, e, path);
    } else {
      assert list[..n] == list;
    }
  }

  /** The tags of all directories above a path, since the last one that blocks them. */
  function TagsAbove(list: seq<Policy>, path: Bytes): set<Bytes>
    decreases |path|
  {
    if SLASH !in path then {}
    else
      var dir := path[..LastSlash(path)];
      if !HasPath(list, dir) then TagsAbove(list, dir)
      else
        var tags := EntryOf(list, dir).tags;
        (if BLOCK in SplitTags(tags) then {} else TagsAbove(list, dir)) + TagSet(Some(tags)) - {BLOCK}
  }

  /** The inherited list of tags, sorted and joined at every step, stands for that set. */
  lemma {:induction false} InheritedTags(list: seq<Policy>, path: Bytes)
    ensures TagSet(Inherited(list, path).tags) == TagsAbove(list, path) && BLOCK !in TagsAbove(list, path)
    decreases |path|
  {
    hide TagSet, SplitTags, OverTags, EntryOf, HasPath;
    if SLASH !in path {
      InTagSet(None, BLOCK);
      NoTags();
    } else {
      var dir := path[..LastSlash(path)];
      InheritedTags(list, dir);
      if HasPath(list, dir) {
        TagsAddUp(Inherited(list, dir).tags, EntryOf(list, dir).tags);
      }
    }
  }

  lemma NoTags()
    ensures TagSet(None) == {}
  {}

  /** The entry of the root directory is inherited by no path but those that begin with
      two slashes. */
  lemma RootIsNotInherited(path: Bytes)
    ensures Below(path, ROOT) <==> |path| >= 2 && path[0] == SLASH && path[1] == SLASH
  {
    if Below(path, ROOT) {
      assert path[0] == (ROOT + [SLASH])[0] && path[1] == (ROOT + [SLASH])[1];
    }
  }

  // ----- What a policy comes to

  /** The directory of q is the path or lies above it. */
  predicate At(path: Bytes, q: Bytes) {
    q == path || q + [47] <= path
  }

  function AccountOf(e: Policy): Bytes { e.account }
  function WatchOf(e: Policy): Bytes { e.watch }
  function CopyOf(e: Policy): Bytes { e.copy }
  function LabelOf(e: Policy): Bytes { e.labelText }
  function UpdatedOf(e: Policy): Bytes { e.updated }

  /** Of the entries at or above the path whose field is not empty, e has the longest path. */
  ghost predicate Nearest(list: seq<Policy>, path: Bytes, field: Policy -> Bytes, e: Policy) {
    && e in list && At(path, e.path) && field(e) != []
    && forall f :: f in list && At(path, f.path) && field(f) != [] ==> |f.path| <= |e.path|
  }

  /** The nearest entry with something in the field decides it, and "-" says none. */
  ghost predicate NearestDecides(list: seq<Policy>, path: Bytes, field: Policy -> Bytes, value: Option<Bytes>) {
    && (forall e :: Nearest(list, path, field, e) ==> value == if field(e) == [45] then None else Some(field(e)))
    && ((forall e :: e in list && At(path, e.path) ==> field(e) == []) ==> value == None)
  }

  /** The path's own entry decides the field. */
  ghost predicate OwnDecides(list: seq<Policy>, path: Bytes, field: Policy -> Bytes, inherit: bool, value: Option<Bytes>) {
    && (forall e :: e in list && e.path == path ==>
          value == if field(e) == [] || (inherit && field(e) == [45]) then None else Some(field(e)))
    && ((forall e :: e in list ==> e.path != path) ==> value == None)
  }

  /** One of the entries at or above the path gives the tag, and no longer path among
      them blocks tags. */
  ghost predicate Tagged(list: seq<Policy>, path: Bytes, t: Bytes) {
    && t != [] && t != [45]
    && exists e :: e in list && At(path, e.path) && t in SplitTags(e.tags)
         && forall f :: f in list && At(path, f.path) && |f.path| > |e.path| ==> [45] !in SplitTags(f.tags)
  }

  ghost predicate TagsInherited(list: seq<Policy>, path: Bytes, tags: Option<Bytes>) {
    forall t :: t in TagSet(tags) <==> Tagged(list, path, t)
  }

  /** The tags of the path's own entry. */
  ghost predicate OwnTags(list: seq<Policy>, path: Bytes, inherit: bool, tags: Option<Bytes>) {
    forall t :: t in TagSet(tags) <==>
      t != [] && (inherit ==> t != [45]) && exists e :: e in list && e.path == path && t in SplitTags(e.tags)
  }

  /** Everything comes from the path's own entry. */
  ghost predicate OwnRight(list: seq<Policy>, path: Bytes, inherit: bool, r: Result) {
    && OwnDecides(list, path, LabelOf, inherit, r.labelText) && OwnDecides(list, path, UpdatedOf, inherit, r.updated)
    && OwnDecides(list, path, AccountOf, inherit, r.account) && OwnDecides(list, path, WatchOf, inherit, r.watch)
    && OwnDecides(list, path, CopyOf, inherit, r.copy) && OwnTags(list, path, inherit, r.tags)
  }

  /** Account, watch and copy policy and tags are inherited; label and update time are not. */
  ghost predicate PolicyRight(list: seq<Policy>, path: Bytes, r: Result) {
    && OwnDecides(list, path, LabelOf, true, r.labelText) && OwnDecides(list, path, UpdatedOf, true, r.updated)
    && NearestDecides(list, path, AccountOf, r.account) && NearestDecides(list, path, WatchOf, r.watch)
    && NearestDecides(list, path, CopyOf, r.copy) && TagsInherited(list, path, r.tags)
  }

  /** A field with the path's own entry over what its directory has. */
  function FieldAt(list: seq<Policy>, path: Bytes, field: Policy -> Bytes): Option<Bytes>
    decreases |path|
  {
    var above := if SLASH in path then FieldAt(list, path[..LastSlash(path)], field) else None;
    if HasPath(list, path) then Over(above, field(EntryOf(list, path)), true) else above
  }

  lemma {:induction false} InheritedFields(list: seq<Policy>, path: Bytes)
    ensures var r := Inherited(list, path);
      && r.labelText == None && r.updated == None
      && if SLASH in path then
           var dir := path[..LastSlash(path)];
           && r.account == FieldAt(list, dir, AccountOf) && r.watch == FieldAt(list, dir, WatchOf)
           && r.copy == FieldAt(list, dir, CopyOf)
         else r == NOTHING
    decreases |path|
  {
    if SLASH in path { InheritedFields(list, path[..LastSlash(path)]); }
  }

  /** What is at or above a path is its own entry and what is at or above its directory. */
  lemma AtMeans(path: Bytes, q: Bytes)
    ensures At(path, q) <==> q == path || (SLASH in path && At(path[..LastSlash(path)], q))
  {
    AboveMeans(path, q);
  }

  lemma AtIsShorter(path: Bytes, q: Bytes)
    ensures At(path, q) && q != path ==> |q| < |path|
  {}

  lemma OnlyEntry(list: seq<Policy>, path: Bytes, e: Policy)
    requires Sorted(list) && e in list && e.path == path
    ensures HasPath(list, path) && EntryOf(list, path) == e
  {
    EntryIs(list, e);
  }

  lemma NoEntry(list: seq<Policy>, path: Bytes, e: Policy)
    requires !HasPath(list, path) && e in list
    ensures e.path != path
  {}

  lemma {:induction false} NearestIsRight(list: seq<Policy>, path: Bytes, field: Policy -> Bytes)
    requires Sorted(list)
    ensures NearestDecides(list, path, field, FieldAt(list, path, field))
    decreases |path|
  {
    hide At, Sorted, HasPath, EntryOf;
    if SLASH in path { NearestIsRight(list, path[..LastSlash(path)], field); }
    var value := FieldAt(list, path, field);
    forall e | Nearest(list, path, field, e) ensures value == if field(e) == [45] then None else Some(field(e)) {
      NearestValue(list, path, field, e);
    }
    if forall e :: e in list && At(path, e.path) ==> field(e) == [] {
      AllSilent(list, path, field);
    }
  }

  lemma NearestValue(list: seq<Policy>, path: Bytes, field: Policy -> Bytes, e: Policy)
    requires Sorted(list) && Nearest(list, path, field, e)
    requires SLASH in path ==>
      NearestDecides(list, path[..LastSlash(path)], field, FieldAt(list, path[..LastSlash(path)], field))
    ensures FieldAt(list, path, field) == if field(e) == [45] then None else Some(field(e))
  {
    hide At, Sorted, HasPath, EntryOf;
    AtMeans(path, e.path);
    if e.path == path {
      OnlyEntry(list, path, e);
    } else {
      var dir := path[..LastSlash(path)];
      AtIsShorter(path, e.path);
      forall f | f in list && At(dir, f.path) && field(f) != [] ensures |f.path| <= |e.path| {
        AtMeans(path, f.path);
      }
      assert Nearest(list, dir, field, e);
      if HasPath(list, path) {
        AtMeans(path, path);
        assert field(EntryOf(list, path)) == [];
      }
    }
  }

  lemma AllSilent(list: seq<Policy>, path: Bytes, field: Policy -> Bytes)
    requires forall e :: e in list && At(path, e.path) ==> field(e) == []
    requires SLASH in path ==>
      NearestDecides(list, path[..LastSlash(path)], field, FieldAt(list, path[..LastSlash(path)], field))
    ensures FieldAt(list, path, field) == None
  {
    hide At, HasPath, EntryOf;
    AtMeans(path, path);
    if SLASH in path {
      forall e | e in list && At(path[..LastSlash(path)], e.path) ensures field(e) == [] {
        AtMeans(path, e.path);
      }
    }
  }

  lemma OwnIsRight(list: seq<Policy>, path: Bytes, field: Policy -> Bytes, inherit: bool)
    requires Sorted(list)
    ensures OwnDecides(list, path, field, inherit,
              if HasPath(list, path) then Over(None, field(EntryOf(list, path)), inherit) else None)
  {
    hide Sorted, HasPath, EntryOf;
    forall e | e in list && e.path == path ensures HasPath(list, path) && EntryOf(list, path) == e {
      OnlyEntry(list, path, e);
    }
  }

  /** The inherited tags with those of the path's own entry. */
  function TagsAt(list: seq<Policy>, path: Bytes): set<Bytes> {
    if !HasPath(list, path) then TagsAbove(list, path)
    else
      var tags := EntryOf(list, path).tags;
      (if BLOCK in SplitTags(tags) then {} else TagsAbove(list, path)) + TagSet(Some(tags)) - {BLOCK}
  }

  lemma {:induction false} TagsAtMeaning(list: seq<Policy>, path: Bytes, t: Bytes)
    requires Sorted(list)
    ensures t in TagsAt(list, path) <==> Tagged(list, path, t)
    decreases |path|
  {
    hide Sorted, HasPath, EntryOf, Tagged, SplitTags, TagSet;
    if SLASH in path { TagsAtMeaning(list, path[..LastSlash(path)], t); }
    if HasPath(list, path) {
      InTagSet(Some(EntryOf(list, path).tags), t);
      TaggedOwn(list, path, t, EntryOf(list, path));
      if t == [] && SLASH in path { NoEmptyTag(list, path[..LastSlash(path)]); }
    } else {
      TaggedAbove(list, path, t);
    }
  }

  lemma NoEmptyTag(list: seq<Policy>, path: Bytes)
    ensures !Tagged(list, path, [])
  {}

  lemma TaggedOwn(list: seq<Policy>, path: Bytes, t: Bytes, own: Policy)
    requires Sorted(list) && own in list && own.path == path
    ensures Tagged(list, path, t) <==>
      && t != [] && t != BLOCK
      && (t in SplitTags(own.tags)
          || (BLOCK !in SplitTags(own.tags) && SLASH in path && Tagged(list, path[..LastSlash(path)], t)))
  {
    hide At, Sorted, SplitTags;
    var tags := SplitTags(own.tags);
    AtMeans(path, path);
    if t == [] || t == BLOCK { return; }
    forall f | f in list && At(path, f.path) ensures f == own || |f.path| < |path| {
      AtIsShorter(path, f.path);
      if f.path == path { OnlyEntry(list, path, f); OnlyEntry(list, path, own); }
    }
    if SLASH in path {
      var dir := path[..LastSlash(path)];
      forall f | f in list ensures At(path, f.path) <==> f.path == path || At(dir, f.path) { AtMeans(path, f.path); }
      forall f | f in list && At(dir, f.path) ensures |f.path| < |path| { AtIsNoLonger(dir, f.path); }
    } else {
      forall f | f in list ensures At(path, f.path) <==> f.path == path { AtMeans(path, f.path); }
    }
  }

  lemma AtIsNoLonger(path: Bytes, q: Bytes)
    ensures At(path, q) ==> |q| <= |path|
  {}

  lemma TaggedAbove(list: seq<Policy>, path: Bytes, t: Bytes)
    requires !HasPath(list, path)
    ensures Tagged(list, path, t) <==> SLASH in path && Tagged(list, path[..LastSlash(path)], t)
  {
    hide At, SplitTags, HasPath;
    forall f | f in list
      ensures At(path, f.path) <==> SLASH in path && At(path[..LastSlash(path)], f.path)
    {
      NoEntry(list, path, f);
      AtMeans(path, f.path);
    }
  }

  /** The recursive definition, and so the pass, gives every path its right policy. */
  lemma PolicyIsRight(list: seq<Policy>, path: Bytes)
    requires Sorted(list)
    ensures PolicyRight(list, path, PolicyOf(list, path, true))
  {
    hide Sorted, HasPath, EntryOf, NearestDecides, OwnDecides, TagsInherited, Inherited, OverTags, FieldAt;
    InheritedFields(list, path);
    OwnIsRight(list, path, LabelOf, true);
    OwnIsRight(list, path, UpdatedOf, true);
    PolicyTags(list, path);
    NearestIsRight(list, path, AccountOf);
    NearestIsRight(list, path, WatchOf);
    NearestIsRight(list, path, CopyOf);
    PolicyFields(list, path);
  }

  lemma PolicyFields(list: seq<Policy>, path: Bytes)
    ensures var r := PolicyOf(list, path, true);
      && r.account == FieldAt(list, path, AccountOf) && r.watch == FieldAt(list, path, WatchOf)
      && r.copy == FieldAt(list, path, CopyOf)
  {
    hide HasPath, EntryOf, Inherited, OverTags;
    InheritedFields(list, path);
  }

  lemma PolicyTags(list: seq<Policy>, path: Bytes)
    requires Sorted(list)
    ensures TagsInherited(list, path, PolicyOf(list, path, true).tags)
  {
    hide Sorted, HasPath, EntryOf, TagSet, Tagged, SplitTags, OverTags, Inherited;
    var tags := PolicyOf(list, path, true).tags;
    NoTags();
    InheritedTags(list, path);
    if HasPath(list, path) {
      TagsAddUp(Inherited(list, path).tags, EntryOf(list, path).tags);
    }
    forall t: Bytes ensures t in TagSet(tags) <==> Tagged(list, path, t) { TagsAtMeaning(list, path, t); }
  }

  lemma OwnPolicyIsRight(list: seq<Policy>, path: Bytes, inherit: bool)
    requires Sorted(list)
    ensures OwnRight(list, path, inherit, if HasPath(list, path) then Own(NOTHING, EntryOf(list, path), inherit) else NOTHING)
  {
    hide Sorted, HasPath, EntryOf, OwnDecides, OwnTags, OverTags;
    OwnIsRight(list, path, LabelOf, inherit);
    OwnIsRight(list, path, UpdatedOf, inherit);
    OwnIsRight(list, path, AccountOf, inherit);
    OwnIsRight(list, path, WatchOf, inherit);
    OwnIsRight(list, path, CopyOf, inherit);
    OwnTagsAreRight(list, path, inherit);
  }

  lemma OwnTagsAreRight(list: seq<Policy>, path: Bytes, inherit: bool)
    requires Sorted(list)
    ensures OwnTags(list, path, inherit, if HasPath(list, path) then OverTags(None, EntryOf(list, path).tags, inherit) else None)
  {
    hide Sorted, HasPath, EntryOf, TagSet, SplitTags, CombinedTags, OverTags;
    NoTags();
    if HasPath(list, path) {
      var own := EntryOf(list, path);
      var tags := OverTags(None, own.tags, inherit);
      forall e | e in list && e.path == path ensures e == own { OnlyEntry(list, path, e); }
      forall t: Bytes
        ensures t in TagSet(tags) <==> t != [] && (inherit ==> t != BLOCK) && t in SplitTags(own.tags)
      {
        OwnTag(own.tags, inherit, t);
      }
    } else {
      forall e | e in list ensures e.path != path { NoEntry(list, path, e); }
    }
  }

  lemma OwnTag(field: Bytes, inherit: bool, t: Bytes)
    ensures t in TagSet(OverTags(None, field, inherit)) <==>
            t != [] && (inherit ==> t != BLOCK) && t in SplitTags(field)
  {
    hide SplitTags, CombinedTags, TagSet;
    EmptyTags();
    NoTags();
    InTagSet(OverTags(None, field, inherit), t);
    if inherit {
      if t != [] { CombinedSplit(None, field, t); }
    } else {
      OwnCombined(field);
    }
  }

  ghost predicate Rising(tags: seq<Bytes>) {
    forall i, j :: 0 <= i < j < |tags| ==> !LexLess(tags[j], tags[i])
  }

  lemma {:induction false} InsertRises(tags: seq<Bytes>, t: Bytes)
    requires Rising(tags)
    ensures Rising(InsertTag(tags, t))
  {
    hide LexLess;
    if tags != [] {
      LexTotal(t, tags[0]);
      if LexLess(t, tags[0]) {
        forall i | 0 <= i < |tags| ensures !LexLess(tags[i], t) {
          if i == 0 { LexTotal(t, tags[0]); } else { NotLess(t, tags[0], tags[i]); }
        }
      } else {
        InsertRises(tags[1..], t);
        var rest := InsertTag(tags[1..], t);
        forall i | 0 <= i < |rest| ensures !LexLess(rest[i], tags[0]) {
          assert rest[i] in rest;
        }
      }
    }
  }

  lemma NotLess(a: Bytes, b: Bytes, c: Bytes)
    requires LexLess(a, b) && !LexLess(c, b)
    ensures !LexLess(c, a)
  {
    if LexLess(c, a) { LexTransitive(c, a, b); }
  }

  lemma {:induction false} SortRises(tags: seq<Bytes>)
    ensures Rising(SortTags(tags))
  {
    if tags != [] {
      SortRises(tags[..|tags| - 1]);
      InsertRises(SortTags(tags[..|tags| - 1]), tags[|tags| - 1]);
    }
  }

  /** Combined tags are in rising order. */
  lemma CombinedIsSorted(was: Option<Bytes>, field: Bytes, inherit: bool)
    ensures Rising(SplitTags(CombinedTags(was, field, inherit)))
  {
    TagsHaveNoComma(field);
    if was.Some? { TagsHaveNoComma(was.value); }
    hide SplitTags, JoinTags, SortTags, NoBlocks, Unique, LexLess;
    var tags := if inherit then NoBlocks(Wanted(was, field)) else SplitTags(field);
    SortRises(tags);
    SplitOfJoin(SortTags(tags));
  }

  lemma OwnCombined(field: Bytes)
    ensures forall t :: t in SplitTags(CombinedTags(None, field, false)) <==> t in SplitTags(field)
  {
    TagsHaveNoComma(field);
    hide SplitTags, JoinTags, SortTags;
    assert SplitTags(field)[0] in SortTags(SplitTags(field));
    SplitOfJoin(SortTags(SplitTags(field)));
  }

  /** Trailing slashes do not count, and the root is one slash. */
  ghost predicate NamesSame(path: Bytes, p: Bytes) {
    if forall i :: 0 <= i < |path| ==> path[i] == 47 then p == [47]
    else p <= path && p != [] && p[|p| - 1] != 47 && forall i :: |p| <= i < |path| ==> path[i] == 47
  }

  lemma {:induction false} StrippedMeaning(path: Bytes)
    ensures Stripped(path) <= path && (Stripped(path) != [] ==> Stripped(path)[|Stripped(path)| - 1] != 47)
    ensures forall i :: |Stripped(path)| <= i < |path| ==> path[i] == 47
  {
    if path != [] && path[|path| - 1] == SLASH {
      StrippedMeaning(path[..|path| - 1]);
      assert forall i :: 0 <= i < |path| - 1 ==> path[..|path| - 1][i] == path[i];
    }
  }

  lemma NormalIsSame(path: Bytes)
    ensures NamesSame(path, Normal(path))
  {
    StrippedMeaning(path);
    var p := Stripped(path);
    if p != [] { assert path[|p| - 1] == p[|p| - 1]; }
  }

  /** A field that is given counts, else what was there. */
  predicate GivenOrPrior(given: Bytes, prior: Bytes, stored: Bytes) {
    (given != [] ==> stored == given) && (given == [] ==> stored == prior)
  }

  /** Everything but the time of update is filled in from the prior entry. */
  predicate FilledIn(given: Policy, prior: Policy, e: Policy) {
    && e.updated == given.updated && GivenOrPrior(given.labelText, prior.labelText, e.labelText)
    && GivenOrPrior(given.account, prior.account, e.account) && GivenOrPrior(given.tags, prior.tags, e.tags)
    && GivenOrPrior(given.watch, prior.watch, e.watch) && GivenOrPrior(given.copy, prior.copy, e.copy)
  }

  /** The entry stored for a path. */
  ghost predicate StoredRight(list: seq<Policy>, path: Bytes, given: Policy, partial: bool, e: Policy) {
    && NamesSame(path, e.path)
    && (forall f :: partial && f in list && f.path == e.path ==> FilledIn(given, f, e))
    && ((forall f :: partial && f in list ==> f.path != e.path) ==> e == given.(path := e.path))
  }

  lemma FilledIsRight(list: seq<Policy>, path: Bytes, given: Policy, partial: bool)
    requires Sorted(list)
    ensures var p := Normal(path);
      StoredRight(list, path, given, partial,
        if partial && HasPath(list, p) then Filled(given.(path := p), EntryOf(list, p)) else given.(path := p))
  {
    hide Sorted, HasPath, EntryOf, NamesSame, Normal;
    var p := Normal(path);
    NormalIsSame(path);
    if HasPath(list, p) {
      forall f | f in list && f.path == p ensures f == EntryOf(list, p) { OnlyEntry(list, p, f); }
    } else {
      forall f | f in list ensures f.path != p { NoEntry(list, p, f); }
    }
  }

  class PathConfig {
    var paths: seq<Policy>

    ghost predicate Valid()
      reads this
    {
      Sorted(paths)
    }

    constructor ()
      ensures Valid() && paths == []
    {
      paths := [];
    }

    method Find(p: Bytes) returns (n: nat)
      ensures n <= |paths| && (n < |paths| <==> HasPath(paths, p)) && (n < |paths| ==> paths[n].path == p)
    {
      n := 0;
      while n < |paths| && paths[n].path != p
        invariant n <= |paths| && forall i :: 0 <= i < n ==> paths[i].path != p
      {
        n := n + 1;
      }
    }

    /** Set, fill in or remove the entry of a path.  Fields must not contain colons. */
    method SetPath(path: Bytes, given: Policy, partial: bool, remove: bool) returns (r: Outcome)
      requires Valid()
      modifies this
      ensures Valid()
      ensures r.Rejected? <==>
        || 58 in given.labelText || 58 in given.account || 58 in given.tags || 58 in given.watch || 58 in given.copy
        || 58 in given.updated
      ensures r.Rejected? ==> paths == old(paths)
      ensures r.Kept? ==>
        var p := Normal(path);
        var e := if partial && HasPath(old(paths), p)
                 then Filled(given.(path := p), EntryOf(old(paths), p)) else given.(path := p);
        && StoredRight(old(paths), path, given, partial, e)
        && (r.stored <==> !(remove && e.Null()))
        && forall f :: f in paths <==> (f in old(paths) && f.path != p) || (r.stored && f == e)
    {
      hide LexLess, StoredRight;
      if !given.Plain() {
        return Rejected;
      }
      var p := Normal(path);
      var e := given.(path := p);
      var n := Find(p);
      FilledIsRight(paths, path, given, partial);
      if n < |paths| {
        ghost var own := paths[n];
        EntryIs(paths, own);
        if partial {
          e := Filled(e, paths[n]);
        }
        ReplaceMeans(paths, n, e);
        if remove && e.Null() {
          paths := paths[..n] + paths[n + 1..];
          return Kept(false);
        }
        paths := paths[n := e];
        return Kept(true);
      }
      if remove && e.Null() {
        return Kept(false);
      }
      SortAfterAppend(paths, e);
      paths := SortEntries(paths + [e]);
      return Kept(true);
    }

    /** The policies of the given paths, or of all listed paths if none are given. */
    method GetPathPolicies(wanted: set<Bytes>, inherit: bool) returns (policies: map<Bytes, Result>)
      requires Valid()
      ensures wanted != {} ==> policies.Keys == wanted && forall p :: p in wanted ==> policies[p] == PolicyOf(paths, p, inherit)
      ensures wanted == {} ==>
        forall p :: (p in policies <==> HasPath(paths, p))
                    && (p in policies ==> policies[p] == Own(NOTHING, EntryOf(paths, p), inherit))
      ensures wanted != {} && inherit ==> forall p :: p in wanted ==> PolicyRight(paths, p, policies[p])
      ensures wanted == {} || !inherit ==> forall p :: p in policies ==> OwnRight(paths, p, inherit, policies[p])
    {
      hide PolicyRight, OwnRight;
      if wanted == {} {
        policies := AllPolicies(inherit);
        forall p | p in policies ensures OwnRight(paths, p, inherit, policies[p]) { OwnPolicyIsRight(paths, p, inherit); }
        return;
      }
      hide Inherited, Own, Sorted, HasPath, EntryOf;
      var inherited, found := Gather(wanted, inherit);
      policies := map p | p in wanted :: if p in found then Own(inherited[p], found[p], inherit) else inherited[p];
      forall p | p in wanted
        ensures if inherit then PolicyRight(paths, p, policies[p]) else OwnRight(paths, p, inherit, policies[p])
      {
        PolicyIsRight(paths, p);
        OwnPolicyIsRight(paths, p, inherit);
      }
    }

    /** One pass over the list: what each path inherits, and its own entry. */
    method Gather(wanted: set<Bytes>, inherit: bool)
      returns (inherited: map<Bytes, Result>, found: map<Bytes, Policy>)
      requires Valid()
      ensures inherited.Keys == wanted
      ensures forall p :: p in wanted ==> inherited[p] == if inherit then Inherited(paths, p) else NOTHING
      ensures forall p :: p in found <==> p in wanted && HasPath(paths, p)
      ensures forall p :: p in found ==> HasPath(paths, p) && found[p] == EntryOf(paths, p)
    {
      hide Pass, Inherited, Inherit, Sorted, HasPath, EntryOf, Below;
      inherited := map p | p in wanted :: NOTHING;
      found := map[];
      var live, n := wanted, 0;
      NothingYet(paths);
      while n < |paths| && live != {}
        invariant 0 <= n <= |paths| && live <= wanted
        invariant InheritedSoFar(paths, n, wanted, inherit, inherited)
        invariant FoundSoFar(paths, n, wanted, live, found)
      {
        var e := paths[n];
        StepFacts(paths, n);
        inherited := InheritAll(inherited, live, e, inherit);
        if e.path in live {
          found := found[e.path := e];
          live := live - {e.path};
        }
        n := n + 1;
      }
      forall p | p in wanted
        ensures inherited[p] == (if inherit then Inherited(paths, p) else NOTHING)
        ensures p in found <==> HasPath(paths, p)
      {
        PassEnds(paths, n, p);
      }
    }

    /** Let the paths that are still of interest inherit from an entry. */
    method InheritAll(inherited: map<Bytes, Result>, live: set<Bytes>, e: Policy, inherit: bool)
      returns (after: map<Bytes, Result>)
      requires live <= inherited.Keys
      ensures after.Keys == inherited.Keys
      ensures forall p :: p in inherited ==>
        after[p] == if p in live && p != e.path && inherit && Below(p, e.path) then Inherit(inherited[p], e) else inherited[p]
    {
      hide Inherit, Below;
      after := inherited;
      var todo := live;
      while todo != {}
        invariant todo <= live && after.Keys == inherited.Keys
        invariant forall p :: p in inherited ==>
          after[p] == if p in live && p !in todo && p != e.path && inherit && Below(p, e.path) then Inherit(inherited[p], e)
                      else inherited[p]
        decreases todo
      {
        var p :| p in todo;
        if e.path != p && inherit && Below(p, e.path) {
          after := after[p := Inherit(after[p], e)];
        }
        todo := todo - {p};
      }
    }

    method AllPolicies(inherit: bool) returns (policies: map<Bytes, Result>)
      requires Valid()
      ensures forall p :: (p in policies <==> HasPath(paths, p))
                          && (p in policies ==> policies[p] == Own(NOTHING, EntryOf(paths, p), inherit))
    {
      hide Own, Sorted, EntryOf, HasPath;
      policies := map[];
      var n := 0;
      NothingYet(paths);
      while n < |paths|
        invariant 0 <= n <= |paths| && forall p :: p in policies <==> HasPath(paths[..n], p)
        invariant forall p :: p in policies ==> HasPath(paths, p) && policies[p] == Own(NOTHING, EntryOf(paths, p), inherit)
      {
        StepFacts(paths, n);
        policies := policies[paths[n].path := Own(NOTHING, paths[n], inherit)];
        n := n + 1;
      }
      assert paths[..n] == paths;
    }
  }

  ghost predicate InheritedSoFar(list: seq<Policy>, n: nat, wanted: set<Bytes>, inherit: bool, inherited: map<Bytes, Result>)
    requires n <= |list|
  {
    && inherited.Keys == wanted
    && forall p :: p in wanted ==> inherited[p] == if inherit then Pass(list[..n], p) else NOTHING
  }

  /** live are the paths whose entry has not been met. */
  ghost predicate FoundSoFar(list: seq<Policy>, n: nat, wanted: set<Bytes>, live: set<Bytes>, found: map<Bytes, Policy>)
    requires n <= |list|
  {
    && (forall p :: p in live <==> p in wanted && !HasPath(list[..n], p))
    && (forall p :: p in found <==> p in wanted && HasPath(list[..n], p))
    && (forall p :: p in found ==> HasPath(list, p) && found[p] == EntryOf(list, p))
  }

  lemma NothingYet(list: seq<Policy>)
    ensures forall p :: !HasPath(list[..0], p) && Pass(list[..0], p) == NOTHING
  {}

  /** What the next entry of the list adds. */
  lemma StepFacts(list: seq<Policy>, n: nat)
    requires Sorted(list) && n < |list|
    ensures HasPath(list, list[n].path) && EntryOf(list, list[n].path) == list[n]
    ensures forall p :: HasPath(list[..n + 1], p) <==> HasPath(list[..n], p) || p == list[n].path
    ensures forall p ::
      Pass(list[..n + 1], p) ==
        if !HasPath(list[..n], p) && p != list[n].path && Below(p, list[n].path) then Inherit(Pass(list[..n], p), list[n])
        else Pass(list[..n], p)
  {
    var init, e := list[..n], list[n];
    assert list[..n + 1] == init + [e];
    EntryIs(list, e);
    assert Sorted(init + [e]) by { assert forall i :: 0 <= i <= n ==> (init + [e])[i] == list[i]; }
    forall p
      ensures HasPath(init + [e], p) <==> HasPath(init, p) || p == e.path
      ensures Pass(init + [e], p) ==
                if !HasPath(init, p) && p != e.path && Below(p, e.path) then Inherit(Pass(init, p), e) else Pass(init, p)
    {
      HasPathSnoc(init, e, p);
      if HasPath(init, p) { DirectoryComesLast(init, e, p); }
    }
  }

  /** When the pass ends, at the end of the list or when every path has been met, the
      path has inherited everything. */
  lemma PassEnds(list: seq<Policy>, n: nat, p: Bytes)
    requires Sorted(list) && n <= |list| && (n < |list| ==> HasPath(list[..n], p))
    ensures Pass(list[..n], p) == Inherited(list, p)
    ensures HasPath(list[..n], p) <==> HasPath(list, p)
  {
    PassIsInherited(list, p);
    if n < |list| {
      PassStopsAtOwn(list, p, n);
      var i :| 0 <= i < n && list[..n][i].path == p;
      assert list[i].path == p;
    } else {
      assert list[..n] == list;
    }
  }

  /** Putting an entry with the same path in an entry's place, or taking it out. */
  lemma ReplaceMeans(list: seq<Policy>, n: nat, e: Policy)
    requires Sorted(list) && n < |list| && e.path == list[n].path
    ensures Sorted(list[n := e]) && Sorted(list[..n] + list[n + 1..])
    ensures forall f :: f in list[n := e] <==> f == e || (f in list && f.path != e.path)
    ensures forall f :: f in list[..n] + list[n + 1..] <==> f in list && f.path != e.path
  {
    var less := list[..n] + list[n + 1..];
    assert forall i :: 0 <= i < |less| ==> less[i] == list[if i < n then i else i + 1];
    forall i | 0 <= i < |list| && i != n ensures list[i].path != e.path {
      LexTotal(list[i].path, e.path);
    }
    assert list[n := e][n] == e;
    forall f | f in list && f.path != e.path ensures f in less && f in list[n := e] {
      var i :| 0 <= i < |list| && list[i] == f;
      assert less[if i < n then i else i - 1] == f;
      assert list[n := e][i] == f;
    }
  }
}
