/** The secrets of a context, each filed under a prefix of the hash of its key. */
module Secrets {
  import opened Wrappers

  type Hash = string -> string

  /** A secret under its prefix, with its key in the encoded value. */
  datatype Entry = Entry(prefix: string, key: string, secret: string)

  /** A secret that expires. */
  datatype Timed = Timed(expires: int, entry: Entry)

  /** Both dictionaries keep the order in which prefixes were first used. */
  datatype Store = Store(volatile: seq<Timed>, persistent: seq<Entry>)

  const MIN_LEN: nat := 4

  // ----- Looking up

  function Alive(volatile: seq<Timed>, now: int): seq<Entry> {
    if volatile == [] then []
    else (if volatile[0].expires > now then [volatile[0].entry] else []) + Alive(volatile[1..], now)
  }

  function Unexpired(volatile: seq<Timed>, now: int): seq<Timed> {
    if volatile == [] then []
    else (if volatile[0].expires > now then [volatile[0]] else []) + Unexpired(volatile[1..], now)
  }

  /** What a lookup goes through: the volatile secrets that have not expired, then the
      persistent ones. */
  function Items(st: Store, now: int): seq<Entry> {
    Alive(st.volatile, now) + st.persistent
  }

  datatype Hit = Hit(secret: Option<string>, len: nat)

  /** Go through the entries whose prefix fits; a prefix of another key makes the next
      one longer. */
  function Scan(items: seq<Entry>, id: string, key: string, len: nat): Hit {
    if items == [] then Hit(None, len)
    else
      var e := items[0];
      if !(e.prefix <= id) then Scan(items[1..], id, key, len)
      else if e.key == key then Hit(Some(e.secret), |e.prefix|)
      else Scan(items[1..], id, key, |e.prefix| + 1)
  }

  function Cut(id: string, len: nat): string {
    if len <= |id| then id[..len] else id
  }

  function Get(h: Hash, st: Store, now: int, key: string): Option<string> {
    Scan(Items(st, now), h(key), key, MIN_LEN).secret
  }

  /** The prefix a secret with this key is filed under, or would be. */
  function Slot(h: Hash, st: Store, now: int, key: string): string {
    Cut(h(key), Scan(Items(st, now), h(key), key, MIN_LEN).len)
  }

  // ----- Storing

  predicate HasPrefix(s: seq<Entry>, p: string) {
    exists i :: 0 <= i < |s| && s[i].prefix == p
  }

  function Put(s: seq<Entry>, e: Entry): (r: seq<Entry>) {
    if s == [] then [e]
    else if s[0].prefix == e.prefix then [e] + s[1..]
    else [s[0]] + Put(s[1..], e)
  }

  function Drop(s: seq<Entry>, p: string): (r: seq<Entry>) {
    if s == [] then []
    else if s[0].prefix == p then s[1..]
    else [s[0]] + Drop(s[1..], p)
  }

  function PutTimed(s: seq<Timed>, t: Timed): (r: seq<Timed>) {
    if s == [] then [t]
    else if s[0].entry.prefix == t.entry.prefix then [t] + s[1..]
    else [s[0]] + PutTimed(s[1..], t)
  }

  /** The volatile secrets after a lookup: expired ones go, unless the lookup ends
      before it has seen all volatile secrets. */
  function Purged(h: Hash, st: Store, now: int, key: string): seq<Timed> {
    if Scan(Alive(st.volatile, now), h(key), key, MIN_LEN).secret.Some? then st.volatile
    else Unexpired(st.volatile, now)
  }

  function Set(h: Hash, st: Store, now: int, key: string, secret: Option<string>, ttl: nat): Store {
    var slot, volatile := Slot(h, st, now, key), Purged(h, st, now, key);
    if secret.None? then Store(volatile, Drop(st.persistent, slot))
    else if ttl > 0 then
      Store(PutTimed(volatile, Timed(now + ttl, Entry(slot, key, secret.value))), Drop(st.persistent, slot))
    else Store(volatile, Put(st.persistent, Entry(slot, key, secret.value)))
  }

  class ContextSecrets {
    const digest: Hash
    var volatile: seq<Timed>
    var secrets: seq<Entry>

    function Value(): Store
      reads this
    {
      Store(volatile, secrets)
    }

    constructor (digest: Hash)
      ensures Value() == Store([], []) && this.digest == digest
    {
      this.digest, volatile, secrets := digest, [], [];
    }

    /** The secret, and the prefix it is filed under or would be. */
    method GetSecret(key: string, now: int) returns (found: Option<string>, slot: string)
      modifies this`volatile
      ensures found == Get(digest, old(Value()), now, key) && slot == Slot(digest, old(Value()), now, key)
      ensures volatile == Purged(digest, old(Value()), now, key)
      ensures forall t :: t in volatile ==> t in old(volatile)
      ensures forall t :: t in old(volatile) && t.expires > now ==> t in volatile
      ensures (forall t :: t in old(volatile) && t.expires > now ==> t.entry.key != key) ==>
        forall t :: t in volatile ==> t.expires > now
    {
      PurgeMeaning(digest, Value(), now, key);
      hide Scan, Alive, Unexpired, Get, Slot, Purged, Cut;
      LookupParts(digest, Value(), now, key);
      var len: nat;
      found, len := GetVolatile(key, now);
      if found.Some? {
        slot := Cut(digest(key), len);
      } else {
        found, slot := GetPersistent(key, len);
      }
    }

    /** The volatile part of a lookup; if it goes to the end, expired secrets go. */
    method GetVolatile(key: string, now: int) returns (found: Option<string>, len: nat)
      modifies this`volatile
      ensures Hit(found, len) == Scan(Alive(old(volatile), now), digest(key), key, MIN_LEN)
      ensures volatile == if found.Some? then old(volatile) else Unexpired(old(volatile), now)
    {
      hide Scan, Alive, Unexpired;
      var id, timed := digest(key), volatile;
      var kept: seq<Timed> := [];
      var i := 0;
      len := MIN_LEN;
      NothingAlive(timed, now);
      assert timed[0..] == timed;
      while i < |timed|
        invariant volatile == timed && 0 <= i <= |timed| && kept == Unexpired(timed[..i], now)
        invariant Scan(Alive(timed[i..], now), id, key, len) == Scan(Alive(timed, now), id, key, MIN_LEN)
      {
        var t := timed[i];
        AliveStep(timed, i, now);
        if t.expires > now {
          ScanStep(t.entry, Alive(timed[i + 1..], now), id, key, len);
          kept := kept + [t];
          if t.entry.prefix <= id {
            if t.entry.key == key {
              return Some(t.entry.secret), |t.entry.prefix|;
            }
            len := |t.entry.prefix| + 1;
          }
        }
        i := i + 1;
      }
      assert timed[..i] == timed && timed[i..] == [];
      NothingFound(id, key, len);
      volatile := kept;
      found := None;
    }

    /** The persistent part of a lookup. */
    method GetPersistent(key: string, start: nat) returns (found: Option<string>, slot: string)
      ensures var hit := Scan(secrets, digest(key), key, start); found == hit.secret && slot == Cut(digest(key), hit.len)
    {
      hide Scan;
      var id := digest(key);
      var len: nat, j := start, 0;
      assert secrets[0..] == secrets;
      while j < |secrets|
        invariant 0 <= j <= |secrets|
        invariant Scan(secrets[j..], id, key, len) == Scan(secrets, id, key, start)
      {
        var e := secrets[j];
        assert secrets[j..] == [e] + secrets[j + 1..];
        ScanStep(e, secrets[j + 1..], id, key, len);
        if e.prefix <= id {
          if e.key == key {
            return Some(e.secret), e.prefix;
          }
          len := |e.prefix| + 1;
        }
        j := j + 1;
      }
      assert secrets[j..] == [];
      NothingFound(id, key, len);
      return None, Cut(id, len);
    }

    /** File the secret, for ttl seconds if ttl is not 0; None removes it. */
    method SetSecret(key: string, secret: Option<string>, ttl: nat, now: int)
      modifies this
      ensures Value() == Set(digest, old(Value()), now, key, secret, ttl)
    {
      hide Scan, Alive, Unexpired, Put, PutTimed, Drop;
      var _, slot := GetSecret(key, now);
      if secret.None? || ttl > 0 {
        secrets := Drop(secrets, slot);
      }
      if secret.Some? {
        if ttl > 0 {
          volatile := PutTimed(volatile, Timed(now + ttl, Entry(slot, key, secret.value)));
        } else {
          secrets := Put(secrets, Entry(slot, key, secret.value));
        }
      }
    }
  }

  lemma {:induction false} ScanAppend(a: seq<Entry>, b: seq<Entry>, id: string, key: string, len: nat)
    ensures var first := Scan(a, id, key, len);
            Scan(a + b, id, key, len) == if first.secret.Some? then first else Scan(b, id, key, first.len)
    decreases |a|
  {
    if a == [] {
      assert a + b == b;
    } else {
      assert (a + b)[1..] == a[1..] + b;
      ScanAppend(a[1..], b, id, key, len);
      ScanAppend(a[1..], b, id, key, |a[0].prefix| + 1);
    }
  }

  lemma LookupParts(h: Hash, st: Store, now: int, key: string)
    ensures var first := Scan(Alive(st.volatile, now), h(key), key, MIN_LEN);
            var hit := if first.secret.Some? then first else Scan(st.persistent, h(key), key, first.len);
            && Get(h, st, now, key) == hit.secret && Slot(h, st, now, key) == Cut(h(key), hit.len)
            && Purged(h, st, now, key) == if first.secret.Some? then st.volatile else Unexpired(st.volatile, now)
  {
    ScanAppend(Alive(st.volatile, now), st.persistent, h(key), key, MIN_LEN);
  }

  lemma ScanStep(e: Entry, rest: seq<Entry>, id: string, key: string, len: nat)
    ensures Scan([e] + rest, id, key, len) ==
              if !(e.prefix <= id) then Scan(rest, id, key, len)
              else if e.key == key then Hit(Some(e.secret), |e.prefix|)
              else Scan(rest, id, key, |e.prefix| + 1)
    ensures e.prefix <= id ==> Cut(id, |e.prefix|) == e.prefix
  {
    assert ([e] + rest)[1..] == rest;
  }

  lemma NothingFound(id: string, key: string, len: nat)
    ensures Scan([], id, key, len) == Hit(None, len) && Alive([], 0) == []
    ensures forall now :: Alive([], now) == []
  {}

  lemma NothingAlive(volatile: seq<Timed>, now: int)
    ensures Unexpired(volatile[..0], now) == []
  {}

  lemma {:induction false} UnexpiredAppend(a: seq<Timed>, t: Timed, now: int)
    ensures Unexpired(a + [t], now) == Unexpired(a, now) + if t.expires > now then [t] else []
    decreases |a|
  {
    if a == [] {
      assert a + [t] == [t];
    } else {
      UnexpiredAppend(a[1..], t, now);
      assert (a + [t])[1..] == a[1..] + [t];
      var head, mid := if a[0].expires > now then [a[0]] else [], Unexpired(a[1..], now);
      var end := if t.expires > now then [t] else [];
      assert Unexpired(a + [t], now) == head + (mid + end);
      hide *;
      assert head + (mid + end) == head + mid + end;
    }
  }

  lemma AliveStep(volatile: seq<Timed>, i: nat, now: int)
    requires i < |volatile|
    ensures var t, rest, before := volatile[i], Alive(volatile[i + 1..], now), Unexpired(volatile[..i], now);
            && Alive(volatile[i..], now) == (if t.expires > now then [t.entry] + rest else rest)
            && Unexpired(volatile[..i + 1], now) == if t.expires > now then before + [t] else before
  {
    assert volatile[..i + 1] == volatile[..i] + [volatile[i]];
    UnexpiredAppend(volatile[..i], volatile[i], now);
  }

  // ----- What a lookup finds

  /** Every entry is filed under a prefix of its key's hash. */
  ghost predicate Filed(h: Hash, items: seq<Entry>) {
    forall i :: 0 <= i < |items| ==> items[i].prefix <= h(items[i].key)
  }

  predicate Holds(items: seq<Entry>, key: string) {
    exists i :: 0 <= i < |items| && items[i].key == key
  }

  function FirstOwn(items: seq<Entry>, key: string): (e: Entry)
    requires Holds(items, key)
    ensures e.key == key && e in items
  {
    if items[0].key == key then items[0] else FirstOwn(items[1..], key)
  }

  /** The secret found is the key's own first one. */
  lemma {:induction false} ScanFindsOwn(h: Hash, items: seq<Entry>, key: string, len: nat)
    requires Filed(h, items)
    ensures var hit := Scan(items, h(key), key, len);
            if Holds(items, key)
            then hit == Hit(Some(FirstOwn(items, key).secret), |FirstOwn(items, key).prefix|)
            else hit.secret == None
    decreases |items|
  {
    if items != [] {
      var e := items[0];
      assert forall i :: 1 <= i < |items| ==> items[i] == items[1..][i - 1];
      ScanFindsOwn(h, items[1..], key, len);
      ScanFindsOwn(h, items[1..], key, |e.prefix| + 1);
    }
  }

  // ----- Well-formed stores

  ghost predicate Distinct(s: seq<Entry>) {
    forall i, j :: 0 <= i < j < |s| ==> s[i].prefix != s[j].prefix
  }

  ghost predicate DistinctTimed(s: seq<Timed>) {
    forall i, j :: 0 <= i < j < |s| ==> s[i].entry.prefix != s[j].entry.prefix
  }

  /** All entries of a key that can be found are filed under the same prefix. */
  ghost predicate OneSlot(items: seq<Entry>) {
    forall a, b :: a in items && b in items && a.key == b.key ==> a.prefix == b.prefix
  }

  ghost predicate WellFormed(h: Hash, st: Store, now: int) {
    && Distinct(st.persistent) && DistinctTimed(st.volatile)
    && Filed(h, st.persistent) && (forall t :: t in st.volatile ==> t.entry.prefix <= h(t.entry.key))
    && OneSlot(Items(st, now))
  }

  lemma {:induction false} AliveMembers(volatile: seq<Timed>, now: int, e: Entry)
    ensures e in Alive(volatile, now) <==> exists t :: t in volatile && t.entry == e && t.expires > now
  {
    if volatile != [] {
      AliveMembers(volatile[1..], now, e);
      assert forall t :: t in volatile <==> t == volatile[0] || t in volatile[1..];
    }
  }

  lemma {:induction false} PutMembers(s: seq<Entry>, e: Entry)
    requires Distinct(s)
    ensures Distinct(Put(s, e)) && forall f :: f in Put(s, e) <==> f == e || (f in s && f.prefix != e.prefix)
  {
    if s != [] {
      assert s == [s[0]] + s[1..];
      assert forall i :: 1 <= i < |s| ==> s[i] == s[1..][i - 1];
      assert Distinct(s[1..]);
      PutMembers(s[1..], e);
      if s[0].prefix == e.prefix {
        assert forall f :: f in s[1..] ==> f.prefix != e.prefix;
      } else {
        assert forall f :: f in Put(s[1..], e) ==> f.prefix != s[0].prefix;
      }
    }
  }

  lemma {:induction false} DropMembers(s: seq<Entry>, p: string)
    requires Distinct(s)
    ensures Distinct(Drop(s, p)) && forall f :: f in Drop(s, p) <==> f in s && f.prefix != p
  {
    if s != [] {
      assert s == [s[0]] + s[1..];
      assert forall i :: 1 <= i < |s| ==> s[i] == s[1..][i - 1];
      assert Distinct(s[1..]);
      DropMembers(s[1..], p);
      if s[0].prefix == p {
        assert forall f :: f in s[1..] ==> f.prefix != p;
      } else {
        assert forall f :: f in Drop(s[1..], p) ==> f.prefix != s[0].prefix;
      }
    }
  }

  lemma FirstOwnAppend(a: seq<Entry>, b: seq<Entry>, key: string)
    ensures Holds(a + b, key) <==> Holds(a, key) || Holds(b, key)
    ensures Holds(a, key) ==> FirstOwn(a + b, key) == FirstOwn(a, key)
    ensures !Holds(a, key) && Holds(b, key) ==> FirstOwn(a + b, key) == FirstOwn(b, key)
    decreases |a|
  {
    if i :| 0 <= i < |a| && a[i].key == key { assert (a + b)[i] == a[i]; }
    if i :| 0 <= i < |b| && b[i].key == key { assert (a + b)[|a| + i] == b[i]; }
    if a == [] {
      assert a + b == b;
    } else {
      FirstOwnAppend(a[1..], b, key);
      assert (a + b)[1..] == a[1..] + b;
    }
  }

  lemma ItemsAreFiled(h: Hash, st: Store, now: int)
    requires WellFormed(h, st, now)
    ensures Filed(h, Items(st, now))
  {
    hide Alive;
    var items := Items(st, now);
    forall i | 0 <= i < |items| ensures items[i].prefix <= h(items[i].key) {
      if i < |Alive(st.volatile, now)| {
        AliveMembers(st.volatile, now, items[i]);
      }
    }
  }

  lemma SlotMeaning(h: Hash, st: Store, now: int, key: string)
    requires WellFormed(h, st, now)
    ensures Slot(h, st, now, key) <= h(key)
    ensures forall e :: e in Items(st, now) && e.key == key ==> e.prefix == Slot(h, st, now, key)
  {
    ItemsAreFiled(h, st, now);
    ScanFindsOwn(h, Items(st, now), key, MIN_LEN);
    hide Items, Scan;
    if Holds(Items(st, now), key) {
      var own := FirstOwn(Items(st, now), key);
      assert own in Items(st, now) && own.prefix <= h(key);
    }
  }

  /** A volatile secret that has not expired comes first, then a persistent one. */
  lemma GetMeaning(h: Hash, st: Store, now: int, key: string)
    requires WellFormed(h, st, now)
    ensures forall e :: e in Alive(st.volatile, now) && e.key == key ==> Get(h, st, now, key) == Some(e.secret)
    ensures !Holds(Alive(st.volatile, now), key) ==>
      forall e :: e in st.persistent && e.key == key ==> Get(h, st, now, key) == Some(e.secret)
    ensures !Holds(Items(st, now), key) ==> Get(h, st, now, key) == None
  {
    var alive := Alive(st.volatile, now);
    ItemsAreFiled(h, st, now);
    ScanFindsOwn(h, Items(st, now), key, MIN_LEN);
    FirstOwnAppend(alive, st.persistent, key);
    assert Items(st, now) == alive + st.persistent;
    hide Scan, FirstOwn, Alive, Items, Filed;
    forall e | e in alive && e.key == key ensures FirstOwn(alive, key) == e && Holds(alive, key) {
      SameAlive(st.volatile, now, FirstOwn(alive, key), e);
    }
    forall e | e in st.persistent && e.key == key ensures FirstOwn(st.persistent, key) == e && Holds(st.persistent, key) {
    }
  }

  lemma SameAlive(volatile: seq<Timed>, now: int, a: Entry, b: Entry)
    requires DistinctTimed(volatile) && a in Alive(volatile, now) && b in Alive(volatile, now) && a.prefix == b.prefix
    ensures a == b
  {
    AliveMembers(volatile, now, a);
    AliveMembers(volatile, now, b);
    var i :| 0 <= i < |volatile| && volatile[i].entry == a;
    var j :| 0 <= j < |volatile| && volatile[j].entry == b;
  }

  // ----- What a set does

  lemma {:induction false} UnexpiredMembers(volatile: seq<Timed>, now: int)
    ensures Alive(Unexpired(volatile, now), now) == Alive(volatile, now)
    ensures forall t :: t in Unexpired(volatile, now) ==> t in volatile
  {
    if volatile != [] {
      var t, kept := volatile[0], Unexpired(volatile[1..], now);
      UnexpiredMembers(volatile[1..], now);
      assert ([t] + kept)[1..] == kept && [] + kept == kept;
    }
  }

  lemma {:induction false} UnexpiredDistinct(volatile: seq<Timed>, now: int)
    requires DistinctTimed(volatile)
    ensures DistinctTimed(Unexpired(volatile, now))
  {
    if volatile != [] {
      var t, rest, kept := volatile[0], volatile[1..], Unexpired(volatile[1..], now);
      assert forall i :: 0 <= i < |rest| ==> rest[i] == volatile[i + 1];
      UnexpiredDistinct(rest, now);
      UnexpiredMembers(rest, now);
      assert [] + kept == kept;
      hide DistinctTimed;
      DistinctCons(t, rest, kept);
    }
  }

  lemma DistinctCons(t: Timed, rest: seq<Timed>, kept: seq<Timed>)
    requires DistinctTimed(kept) && forall x :: x in kept ==> x in rest
    requires forall i :: 0 <= i < |rest| ==> rest[i].entry.prefix != t.entry.prefix
    ensures DistinctTimed([t] + kept)
  {
    assert forall i :: 0 <= i < |kept| ==> kept[i] in rest;
  }

  lemma PurgedMembers(h: Hash, st: Store, now: int, key: string)
    ensures Alive(Purged(h, st, now, key), now) == Alive(st.volatile, now)
    ensures forall t :: t in Purged(h, st, now, key) ==> t in st.volatile
    ensures DistinctTimed(st.volatile) ==> DistinctTimed(Purged(h, st, now, key))
  {
    UnexpiredMembers(st.volatile, now);
    if DistinctTimed(st.volatile) { UnexpiredDistinct(st.volatile, now); }
  }

  lemma {:induction false} PutTimedMembers(s: seq<Timed>, t: Timed)
    requires DistinctTimed(s)
    ensures DistinctTimed(PutTimed(s, t))
    ensures forall f :: f in PutTimed(s, t) <==> f == t || (f in s && f.entry.prefix != t.entry.prefix)
  {
    if s != [] {
      assert s == [s[0]] + s[1..];
      assert forall i :: 1 <= i < |s| ==> s[i] == s[1..][i - 1];
      assert DistinctTimed(s[1..]);
      PutTimedMembers(s[1..], t);
      if s[0].entry.prefix == t.entry.prefix {
        assert forall f :: f in s[1..] ==> f.entry.prefix != t.entry.prefix;
      } else {
        assert forall f :: f in PutTimed(s[1..], t) ==> f.entry.prefix != s[0].entry.prefix;
      }
    }
  }

  lemma PutTimedAlive(volatile: seq<Timed>, t: Timed, now: int, e: Entry)
    requires DistinctTimed(volatile) && t.expires > now
    ensures e in Alive(PutTimed(volatile, t), now) <==>
      e == t.entry || (e in Alive(volatile, now) && e.prefix != t.entry.prefix)
  {
    PutTimedMembers(volatile, t);
    AliveMembers(PutTimed(volatile, t), now, e);
    AliveMembers(volatile, now, e);
  }

  /** e can be found in the store: among the volatile secrets, or the persistent ones. */
  predicate Volatile(st: Store, now: int, e: Entry) {
    e in Alive(st.volatile, now)
  }

  predicate VolatileKey(st: Store, now: int, key: string) {
    Holds(Alive(st.volatile, now), key)
  }

  /** What a set changes, entry by entry. */
  lemma SetMembers(h: Hash, st: Store, now: int, key: string, secret: Option<string>, ttl: nat, e: Entry)
    requires WellFormed(h, st, now)
    ensures var st', slot := Set(h, st, now, key, secret, ttl), Slot(h, st, now, key);
            && (Volatile(st', now, e) <==>
                if secret.Some? && ttl > 0 then e == Entry(slot, key, secret.value) || (Volatile(st, now, e) && e.prefix != slot)
                else Volatile(st, now, e))
            && (e in st'.persistent <==>
                || (secret.Some? && ttl == 0 && e == Entry(slot, key, secret.value))
                || (e in st.persistent && e.prefix != slot))
  {
    hide Alive, Slot;
    var slot := Slot(h, st, now, key);
    PurgedMembers(h, st, now, key);
    if secret.None? {
      DropMembers(st.persistent, slot);
    } else {
      var entry := Entry(slot, key, secret.value);
      if ttl > 0 {
        PutTimedAlive(Purged(h, st, now, key), Timed(now + ttl, entry), now, e);
        DropMembers(st.persistent, slot);
      } else {
        PutMembers(st.persistent, entry);
      }
    }
  }

  /** Every operation keeps the store well-formed. */
  lemma SetKeepsWellFormed(h: Hash, st: Store, now: int, key: string, secret: Option<string>, ttl: nat)
    requires WellFormed(h, st, now)
    ensures WellFormed(h, Set(h, st, now, key, secret, ttl), now)
  {
    var st', slot := Set(h, st, now, key, secret, ttl), Slot(h, st, now, key);
    SlotMeaning(h, st, now, key);
    SetKeepsLists(h, st, now, key, secret, ttl);
    hide Set, Slot, Alive, Holds;
    forall a, b | a in Items(st', now) && b in Items(st', now) && a.key == b.key ensures a.prefix == b.prefix {
      SetMembers(h, st, now, key, secret, ttl, a);
      SetMembers(h, st, now, key, secret, ttl, b);
      assert a.key != key ==> a in Items(st, now) && b in Items(st, now);
    }
  }

  lemma SetKeepsLists(h: Hash, st: Store, now: int, key: string, secret: Option<string>, ttl: nat)
    requires WellFormed(h, st, now) && Slot(h, st, now, key) <= h(key)
    ensures var st' := Set(h, st, now, key, secret, ttl);
            && Distinct(st'.persistent) && DistinctTimed(st'.volatile) && Filed(h, st'.persistent)
            && forall t :: t in st'.volatile ==> t.entry.prefix <= h(t.entry.key)
  {
    hide Slot, Alive, Purged, Put, Drop, PutTimed;
    var slot := Slot(h, st, now, key);
    PurgedMembers(h, st, now, key);
    DropMembers(st.persistent, slot);
    if secret.Some? {
      var entry := Entry(slot, key, secret.value);
      PutMembers(st.persistent, entry);
      PutTimedMembers(Purged(h, st, now, key), Timed(now + ttl, entry));
    }
  }

  /** Time that goes by keeps the store well-formed. */
  lemma WaitKeepsWellFormed(h: Hash, st: Store, now: int, later: int)
    requires WellFormed(h, st, now) && now <= later
    ensures WellFormed(h, st, later)
  {
    hide Alive;
    forall e | e in Items(st, later) ensures e in Items(st, now) {
      AliveMembers(st.volatile, later, e);
      AliveMembers(st.volatile, now, e);
    }
  }

  /** The store gives the key this answer and every other key the answer it had. */
  ghost predicate Updates(h: Hash, st: Store, st': Store, now: int, key: string, answer: Option<string>) {
    && Get(h, st', now, key) == answer
    && forall x :: x != key ==> Get(h, st', now, x) == Get(h, st, now, x)
  }

  /** Nothing in a slot belongs to another key, or what does is hidden anyway. */
  ghost predicate SlotIsFree(h: Hash, st: Store, now: int, key: string) {
    forall e :: e in st.persistent && e.prefix == Slot(h, st, now, key) ==> e.key == key || VolatileKey(st, now, e.key)
  }

  lemma HoldsMeans(items: seq<Entry>, key: string)
    ensures Holds(items, key) <==> exists e :: e in items && e.key == key
  {
    if Holds(items, key) {
      var i :| 0 <= i < |items| && items[i].key == key;
      assert items[i] in items;
    }
  }

  /** What a lookup answers, by entry. */
  lemma GetByEntry(h: Hash, st: Store, now: int, x: string)
    requires WellFormed(h, st, now)
    ensures forall e :: Volatile(st, now, e) && e.key == x ==> Get(h, st, now, x) == Some(e.secret)
    ensures (forall e :: Volatile(st, now, e) ==> e.key != x) ==>
      forall e :: e in st.persistent && e.key == x ==> Get(h, st, now, x) == Some(e.secret)
    ensures (forall e :: Volatile(st, now, e) || e in st.persistent ==> e.key != x) ==> Get(h, st, now, x) == None
    ensures VolatileKey(st, now, x) <==> exists e :: Volatile(st, now, e) && e.key == x
  {
    GetMeaning(h, st, now, x);
    HoldsMeans(Alive(st.volatile, now), x);
    HoldsMeans(Items(st, now), x);
    hide Alive, Get, Holds, WellFormed;
  }

  /** Setting a persistent secret does what it should, whatever the secret, if and only
      if the key has no volatile secret and its slot is free. */
  lemma SetIsUpdateExactly(h: Hash, st: Store, now: int, key: string)
    requires WellFormed(h, st, now)
    ensures (forall s :: Updates(h, st, Set(h, st, now, key, Some(s), 0), now, key, Some(s))) <==>
            !VolatileKey(st, now, key) && SlotIsFree(h, st, now, key)
  {
    if !VolatileKey(st, now, key) && SlotIsFree(h, st, now, key) {
      forall s ensures Updates(h, st, Set(h, st, now, key, Some(s), 0), now, key, Some(s)) {
        SetUpdates(h, st, now, key, s);
      }
    } else {
      SetFails(h, st, now, key);
    }
  }

  lemma SetUpdates(h: Hash, st: Store, now: int, key: string, s: string)
    requires WellFormed(h, st, now) && !VolatileKey(st, now, key) && SlotIsFree(h, st, now, key)
    ensures Updates(h, st, Set(h, st, now, key, Some(s), 0), now, key, Some(s))
  {
    var st', slot := Set(h, st, now, key, Some(s), 0), Slot(h, st, now, key);
    SetKeepsWellFormed(h, st, now, key, Some(s), 0);
    SlotMeaning(h, st, now, key);
    hide Set, Slot, Get, Volatile, VolatileKey, WellFormed;
    forall e ensures Volatile(st', now, e) <==> Volatile(st, now, e)
             ensures e in st'.persistent <==> e == Entry(slot, key, s) || (e in st.persistent && e.prefix != slot)
    {
      SetMembers(h, st, now, key, Some(s), 0, e);
    }
    forall x ensures Get(h, st', now, x) == if x == key then Some(s) else Get(h, st, now, x) {
      GetByEntry(h, st, now, x);
      GetByEntry(h, st', now, x);
    }
  }

  lemma SetFails(h: Hash, st: Store, now: int, key: string)
    requires WellFormed(h, st, now) && !(!VolatileKey(st, now, key) && SlotIsFree(h, st, now, key))
    ensures exists s :: !Updates(h, st, Set(h, st, now, key, Some(s), 0), now, key, Some(s))
  {
    GetByEntry(h, st, now, key);
    if VolatileKey(st, now, key) {
      var e :| Volatile(st, now, e) && e.key == key;
      var s := e.secret + "!";
      SetKeepsWellFormed(h, st, now, key, Some(s), 0);
      SetMembers(h, st, now, key, Some(s), 0, e);
      GetByEntry(h, Set(h, st, now, key, Some(s), 0), now, key);
      assert !Updates(h, st, Set(h, st, now, key, Some(s), 0), now, key, Some(s));
    } else {
      var e :| e in st.persistent && e.prefix == Slot(h, st, now, key) && e.key != key && !VolatileKey(st, now, e.key);
      OtherIsLost(h, st, now, key, Some(""), 0, e);
      assert !Updates(h, st, Set(h, st, now, key, Some(""), 0), now, key, Some(""));
    }
  }

  /** A persistent secret in the slot of another key cannot be found afterwards. */
  lemma OtherIsLost(h: Hash, st: Store, now: int, key: string, secret: Option<string>, ttl: nat, e: Entry)
    requires WellFormed(h, st, now) && e in st.persistent && e.prefix == Slot(h, st, now, key) && e.key != key
    requires !VolatileKey(st, now, e.key)
    ensures Get(h, st, now, e.key) == Some(e.secret)
    ensures Get(h, Set(h, st, now, key, secret, ttl), now, e.key) == None
  {
    var st' := Set(h, st, now, key, secret, ttl);
    SetKeepsWellFormed(h, st, now, key, secret, ttl);
    GetByEntry(h, st, now, e.key);
    GetByEntry(h, st', now, e.key);
    hide Set, Slot, Get, Volatile, VolatileKey;
    forall f: Entry | f.key == e.key ensures !Volatile(st', now, f) && f !in st'.persistent {
      SetMembers(h, st, now, key, secret, ttl, f);
    }
  }

  /** Removing a secret does what it should under the same condition. */
  lemma RemoveIsUpdateExactly(h: Hash, st: Store, now: int, key: string)
    requires WellFormed(h, st, now)
    ensures Updates(h, st, Set(h, st, now, key, None, 0), now, key, None) <==>
            !VolatileKey(st, now, key) && SlotIsFree(h, st, now, key)
  {
    var st', slot := Set(h, st, now, key, None, 0), Slot(h, st, now, key);
    SetKeepsWellFormed(h, st, now, key, None, 0);
    SlotMeaning(h, st, now, key);
    hide Set, Slot, Get, Volatile, VolatileKey, WellFormed;
    forall e ensures Volatile(st', now, e) <==> Volatile(st, now, e)
             ensures e in st'.persistent <==> e in st.persistent && e.prefix != slot
    {
      SetMembers(h, st, now, key, None, 0, e);
    }
    if VolatileKey(st, now, key) {
      GetByEntry(h, st, now, key);
      GetByEntry(h, st', now, key);
    } else if SlotIsFree(h, st, now, key) {
      forall x ensures Get(h, st', now, x) == if x == key then None else Get(h, st, now, x) {
        GetByEntry(h, st, now, x);
        GetByEntry(h, st', now, x);
      }
    } else {
      var e :| e in st.persistent && e.prefix == slot && e.key != key && !VolatileKey(st, now, e.key);
      OtherIsLost(h, st, now, key, None, 0, e);
    }
  }

  /** Nothing at all in the slot belongs to another key. */
  ghost predicate SlotIsOwn(h: Hash, st: Store, now: int, key: string) {
    forall e :: (Volatile(st, now, e) || e in st.persistent) && e.prefix == Slot(h, st, now, key) ==> e.key == key
  }

  /** Setting a volatile secret does what it should, whatever the secret, if and only
      if nothing in its slot belongs to another key. */
  lemma SetVolatileIsUpdateExactly(h: Hash, st: Store, now: int, key: string, ttl: nat)
    requires WellFormed(h, st, now) && ttl > 0
    ensures (forall s :: Updates(h, st, Set(h, st, now, key, Some(s), ttl), now, key, Some(s))) <==>
            SlotIsOwn(h, st, now, key)
  {
    if SlotIsOwn(h, st, now, key) {
      forall s ensures Updates(h, st, Set(h, st, now, key, Some(s), ttl), now, key, Some(s)) {
        SetVolatileUpdates(h, st, now, key, s, ttl);
      }
    } else {
      hide Volatile;
      var e :| (Volatile(st, now, e) || e in st.persistent) && e.prefix == Slot(h, st, now, key) && e.key != key;
      SlotIsEmptied(h, st, now, key, "", ttl, e);
      assert !Updates(h, st, Set(h, st, now, key, Some(""), ttl), now, key, Some(""));
    }
  }

  lemma SetVolatileUpdates(h: Hash, st: Store, now: int, key: string, s: string, ttl: nat)
    requires WellFormed(h, st, now) && ttl > 0 && SlotIsOwn(h, st, now, key)
    ensures Updates(h, st, Set(h, st, now, key, Some(s), ttl), now, key, Some(s))
  {
    var st', slot := Set(h, st, now, key, Some(s), ttl), Slot(h, st, now, key);
    SetKeepsWellFormed(h, st, now, key, Some(s), ttl);
    hide Set, Slot, Get, Volatile, VolatileKey, WellFormed;
    forall e ensures Volatile(st', now, e) <==> e == Entry(slot, key, s) || (Volatile(st, now, e) && e.prefix != slot)
             ensures e in st'.persistent <==> e in st.persistent && e.prefix != slot
    {
      SetMembers(h, st, now, key, Some(s), ttl, e);
    }
    assert Volatile(st', now, Entry(slot, key, s));
    forall x ensures Get(h, st', now, x) == if x == key then Some(s) else Get(h, st, now, x) {
      GetByEntry(h, st, now, x);
      GetByEntry(h, st', now, x);
    }
  }

  lemma SlotIsEmptied(h: Hash, st: Store, now: int, key: string, s: string, ttl: nat, e: Entry)
    requires WellFormed(h, st, now) && ttl > 0 && e.prefix == Slot(h, st, now, key) && e.key != key
    requires Volatile(st, now, e) || e in st.persistent
    ensures Get(h, st, now, e.key).Some? && Get(h, Set(h, st, now, key, Some(s), ttl), now, e.key) == None
  {
    var st' := Set(h, st, now, key, Some(s), ttl);
    SetKeepsWellFormed(h, st, now, key, Some(s), ttl);
    GetByEntry(h, st, now, e.key);
    GetByEntry(h, st', now, e.key);
    assert e in Items(st, now);
    forall f: Entry | f.key == e.key ensures !Volatile(st', now, f) && f !in st'.persistent {
      SetMembers(h, st, now, key, Some(s), ttl, f);
      if Volatile(st, now, f) || f in st.persistent {
        assert f in Items(st, now);
      }
    }
  }

  /** A volatile secret is found until its time is up, and nothing after that. */
  lemma VolatileLasts(h: Hash, st: Store, now: int, key: string, s: string, ttl: nat, later: int)
    requires WellFormed(h, st, now) && ttl > 0 && now <= later
    ensures Get(h, Set(h, st, now, key, Some(s), ttl), later, key) == if later < now + ttl then Some(s) else None
  {
    var st', slot := Set(h, st, now, key, Some(s), ttl), Slot(h, st, now, key);
    SetKeepsWellFormed(h, st, now, key, Some(s), ttl);
    WaitKeepsWellFormed(h, st', now, later);
    GetByEntry(h, st', later, key);
    SlotMeaning(h, st, now, key);
    hide WellFormed, Get, Slot, Alive;
    var own := Timed(now + ttl, Entry(slot, key, s));
    forall t: Timed | t in st'.volatile && t.entry.key == key && t.expires > now ensures t == own {
      OnlyTimed(h, st, now, key, s, ttl, t);
    }
    OwnTimed(h, st, now, key, s, ttl);
    forall e: Entry | e in st'.persistent ensures e.key != key {
      SetMembers(h, st, now, key, Some(s), ttl, e);
    }
    forall e: Entry ensures Volatile(st', later, e) && e.key == key <==> e == own.entry && later < now + ttl {
      AliveMembers(st'.volatile, later, e);
    }
    assert Volatile(st', later, own.entry) <==> later < now + ttl;
  }

  lemma OwnTimed(h: Hash, st: Store, now: int, key: string, s: string, ttl: nat)
    requires WellFormed(h, st, now) && ttl > 0
    ensures Timed(now + ttl, Entry(Slot(h, st, now, key), key, s)) in Set(h, st, now, key, Some(s), ttl).volatile
  {
    hide Slot, Alive, Purged, PutTimed;
    PurgedMembers(h, st, now, key);
    PutTimedMembers(Purged(h, st, now, key), Timed(now + ttl, Entry(Slot(h, st, now, key), key, s)));
  }

  lemma OnlyTimed(h: Hash, st: Store, now: int, key: string, s: string, ttl: nat, t: Timed)
    requires WellFormed(h, st, now) && ttl > 0 && t in Set(h, st, now, key, Some(s), ttl).volatile
    requires t.entry.key == key && t.expires > now
    ensures t == Timed(now + ttl, Entry(Slot(h, st, now, key), key, s))
  {
    var slot := Slot(h, st, now, key);
    PurgedMembers(h, st, now, key);
    SlotMeaning(h, st, now, key);
    hide Slot, Alive, Purged, PutTimed, WellFormed;
    assert DistinctTimed(st.volatile) by { FactsOfForm(h, st, now); }
    PutTimedMembers(Purged(h, st, now, key), Timed(now + ttl, Entry(slot, key, s)));
    if t in st.volatile {
      AliveMembers(st.volatile, now, t.entry);
      assert t.entry in Items(st, now);
    }
  }

  lemma FactsOfForm(h: Hash, st: Store, now: int)
    requires WellFormed(h, st, now)
    ensures DistinctTimed(st.volatile) && Distinct(st.persistent)
  {}

  lemma {:induction false} UnexpiredAre(volatile: seq<Timed>, now: int)
    ensures forall t :: t in Unexpired(volatile, now) <==> t in volatile && t.expires > now
  {
    if volatile != [] {
      UnexpiredAre(volatile[1..], now);
      assert forall t :: t in volatile <==> t == volatile[0] || t in volatile[1..];
    }
  }

  /** Only an entry of the key ends the scan. */
  lemma {:induction false} ScanNeedsKey(items: seq<Entry>, id: string, key: string, len: nat)
    ensures Scan(items, id, key, len).secret.Some? ==> Holds(items, key)
    decreases |items|
  {
    if items != [] {
      ScanNeedsKey(items[1..], id, key, len);
      ScanNeedsKey(items[1..], id, key, |items[0].prefix| + 1);
      assert forall i :: 1 <= i < |items| ==> items[i] == items[1..][i - 1];
    }
  }

  /** What a lookup leaves of the volatile secrets: no unexpired one goes, and if it has
      not found one of them, no expired one stays. */
  lemma PurgeMeaning(h: Hash, st: Store, now: int, key: string)
    ensures forall t :: t in Purged(h, st, now, key) ==> t in st.volatile
    ensures forall t :: t in st.volatile && t.expires > now ==> t in Purged(h, st, now, key)
    ensures (forall t :: t in st.volatile && t.expires > now ==> t.entry.key != key) ==>
      forall t :: t in Purged(h, st, now, key) ==> t.expires > now
  {
    var alive := Alive(st.volatile, now);
    UnexpiredAre(st.volatile, now);
    ScanNeedsKey(alive, h(key), key, MIN_LEN);
    hide Scan, Alive, Unexpired;
    if Holds(alive, key) {
      var i :| 0 <= i < |alive| && alive[i].key == key;
      AliveMembers(st.volatile, now, alive[i]);
    }
  }

  /** The first secret of a store is filed under four characters. */
  lemma FirstSlot(h: Hash, now: int, key: string)
    requires |h(key)| >= 4
    ensures Slot(h, Store([], []), now, key) == h(key)[..4]
  {
    assert Items(Store([], []), now) == [];
  }

  // ----- Runs of persistent sets

  /** Stored prefixes are closed downward to length 4, each after the one it extends. */
  ghost predicate Chain(items: seq<Entry>) {
    forall i :: 0 <= i < |items| ==> Linked(items, i)
  }

  predicate Linked(items: seq<Entry>, i: nat)
    requires i < |items|
  {
    var n := |items[i].prefix|;
    n >= MIN_LEN && (n > MIN_LEN ==> HasPrefix(items[..i], items[i].prefix[..n - 1]))
  }

  /** All prefixes of the hash from length 4 up to len, and not that one, are in use. */
  ghost predicate UsedUpTo(items: seq<Entry>, id: string, len: nat) {
    && MIN_LEN <= len <= |id| + 1
    && (forall l :: MIN_LEN <= l < len ==> HasPrefix(items, id[..l]))
    && (forall l :: len <= l <= |id| ==> !HasPrefix(items, id[..l]))
  }

  lemma HasPrefixSnoc(items: seq<Entry>, e: Entry, p: string)
    ensures HasPrefix(items + [e], p) <==> HasPrefix(items, p) || e.prefix == p
  {
    if i :| 0 <= i < |items| && items[i].prefix == p { assert (items + [e])[i].prefix == p; }
    assert (items + [e])[|items|] == e;
  }

  /** Fitting prefixes are met in increasing length, so a new secret gets a slot that
      is not in use. */
  lemma {:induction false} ScanOfChain(items: seq<Entry>, id: string, key: string)
    requires Chain(items) && Distinct(items) && |id| >= MIN_LEN && !Holds(items, key)
    ensures Scan(items, id, key, MIN_LEN).secret == None
    ensures UsedUpTo(items, id, Scan(items, id, key, MIN_LEN).len)
  {
    if items != [] {
      var init, e := items[..|items| - 1], items[|items| - 1];
      assert items == init + [e];
      ChainInit(items);
      assert forall i :: 0 <= i < |init| ==> items[i] == init[i];
      ScanOfChain(init, id, key);
      ScanAppend(init, [e], id, key, MIN_LEN);
      ScanStep(e, [], id, key, Scan(init, id, key, MIN_LEN).len);
      assert [e] + [] == [e];
      hide Scan;
      NothingFound(id, key, Scan(init, id, key, MIN_LEN).len);
      NothingFound(id, key, |e.prefix| + 1);
      UsedNext(init, e, id, Scan(init, id, key, MIN_LEN).len);
    }
  }

  lemma ChainInit(items: seq<Entry>)
    requires Chain(items) && items != []
    ensures Chain(items[..|items| - 1])
  {
    var init := items[..|items| - 1];
    forall i | 0 <= i < |init| ensures Linked(init, i) {
      assert Linked(items, i) && init[..i] == items[..i];
    }
  }

  lemma UsedNext(init: seq<Entry>, e: Entry, id: string, len: nat)
    requires UsedUpTo(init, id, len) && Chain(init + [e]) && Distinct(init + [e])
    ensures UsedUpTo(init + [e], id, if e.prefix <= id then |e.prefix| + 1 else len)
  {
    var items := init + [e];
    assert Linked(items, |init|) && items[..|init|] == init && items[|init|] == e;
    hide HasPrefix, Chain, Linked;
    forall p ensures HasPrefix(items, p) <==> HasPrefix(init, p) || e.prefix == p { HasPrefixSnoc(init, e, p); }
    if e.prefix <= id {
      var n := |e.prefix|;
      assert e.prefix == id[..n] && (n > MIN_LEN ==> e.prefix[..n - 1] == id[..n - 1]);
      PrefixIsNew(init, e);
      assert n == len;
    }
  }

  lemma PrefixIsNew(init: seq<Entry>, e: Entry)
    requires Distinct(init + [e])
    ensures !HasPrefix(init, e.prefix)
  {
    var items := init + [e];
    assert items[|init|] == e && forall i :: 0 <= i < |init| ==> items[i] == init[i];
  }

  const HASH_LEN: nat := 40

  /** The hash of the key is not the hash of another key in the store. */
  ghost predicate NoCollision(h: Hash, items: seq<Entry>, key: string) {
    && |h(key)| == HASH_LEN
    && forall e :: e in items && e.key != key ==> |h(e.key)| == HASH_LEN && h(e.key) != h(key)
  }

  ghost predicate InOrder(h: Hash, st: Store) {
    && st.volatile == [] && Chain(st.persistent) && Distinct(st.persistent) && Filed(h, st.persistent)
    && OneSlot(st.persistent)
  }

  lemma InOrderIsWellFormed(h: Hash, st: Store, now: int)
    requires InOrder(h, st)
    ensures WellFormed(h, st, now) && Items(st, now) == st.persistent && forall x :: !VolatileKey(st, now, x)
  {
    assert [] + st.persistent == st.persistent;
  }

  /** Without collisions a key's slot is its own or new. */
  lemma SlotOfChain(h: Hash, st: Store, now: int, key: string)
    requires InOrder(h, st) && NoCollision(h, st.persistent, key)
    ensures var slot := Slot(h, st, now, key);
            if Holds(st.persistent, key) then exists e :: e in st.persistent && e.key == key && e.prefix == slot
            else !HasPrefix(st.persistent, slot) && |slot| >= MIN_LEN
                 && (|slot| > MIN_LEN ==> HasPrefix(st.persistent, slot[..|slot| - 1]))
  {
    var items, id := st.persistent, h(key);
    InOrderIsWellFormed(h, st, now);
    if Holds(items, key) {
      SlotMeaning(h, st, now, key);
      HoldsMeans(items, key);
    } else {
      ScanOfChain(items, id, key);
      var len := Scan(items, id, key, MIN_LEN).len;
      if len > |id| {
        FullPrefixCollides(h, items, key);
      }
      assert Slot(h, st, now, key) == id[..len];
      assert len > MIN_LEN ==> id[..len][..len - 1] == id[..len - 1];
    }
  }

  lemma FullPrefixCollides(h: Hash, items: seq<Entry>, key: string)
    requires Filed(h, items) && NoCollision(h, items, key) && !Holds(items, key)
    ensures !HasPrefix(items, h(key)[..|h(key)|])
  {
    assert h(key)[..|h(key)|] == h(key);
    forall i | 0 <= i < |items| ensures items[i].prefix != h(key) {
      assert items[i] in items;
    }
  }

  lemma {:induction false} PutNew(s: seq<Entry>, e: Entry)
    requires !HasPrefix(s, e.prefix)
    ensures Put(s, e) == s + [e]
  {
    if s != [] {
      assert forall i :: 0 <= i < |s[1..]| ==> s[1..][i] == s[i + 1];
      assert s[0].prefix != e.prefix;
      PutNew(s[1..], e);
    }
  }

  lemma {:induction false} PutOld(s: seq<Entry>, e: Entry)
    requires HasPrefix(s, e.prefix)
    ensures |Put(s, e)| == |s| && forall i :: 0 <= i < |s| ==> Put(s, e)[i].prefix == s[i].prefix
  {
    if s[0].prefix != e.prefix {
      var i :| 0 <= i < |s| && s[i].prefix == e.prefix;
      assert s[1..][i - 1].prefix == e.prefix;
      PutOld(s[1..], e);
    }
  }

  lemma ChainOfPrefixes(a: seq<Entry>, b: seq<Entry>)
    requires Chain(a) && |a| == |b| && forall i :: 0 <= i < |a| ==> a[i].prefix == b[i].prefix
    ensures Chain(b)
  {
    forall i | 0 <= i < |b| ensures Linked(b, i) {
      assert Linked(a, i);
      var n := |a[i].prefix|;
      if n > MIN_LEN {
        var j :| 0 <= j < i && a[..i][j].prefix == a[i].prefix[..n - 1];
        assert b[..i][j].prefix == b[i].prefix[..n - 1];
      }
    }
  }

  lemma ChainSnoc(a: seq<Entry>, e: Entry)
    requires Chain(a) && |e.prefix| >= MIN_LEN
    requires |e.prefix| > MIN_LEN ==> HasPrefix(a, e.prefix[..|e.prefix| - 1])
    ensures Chain(a + [e])
  {
    forall i | 0 <= i < |a + [e]| ensures Linked(a + [e], i) {
      if i < |a| {
        assert Linked(a, i) && (a + [e])[..i] == a[..i];
      } else {
        assert (a + [e])[..i] == a;
      }
    }
  }

  lemma PutKeepsChain(items: seq<Entry>, e: Entry)
    requires Chain(items) && |e.prefix| >= MIN_LEN
    requires !HasPrefix(items, e.prefix) && |e.prefix| > MIN_LEN ==> HasPrefix(items, e.prefix[..|e.prefix| - 1])
    ensures Chain(Put(items, e))
  {
    hide Chain, Put;
    if HasPrefix(items, e.prefix) {
      PutOld(items, e);
      ChainOfPrefixes(items, Put(items, e));
    } else {
      PutNew(items, e);
      ChainSnoc(items, e);
    }
  }

  /** Without collisions the slot is free, and filing a secret there keeps the order. */
  lemma SlotIsFreeInOrder(h: Hash, st: Store, now: int, key: string, s: string)
    requires InOrder(h, st) && NoCollision(h, st.persistent, key)
    ensures SlotIsFree(h, st, now, key) && Chain(Put(st.persistent, Entry(Slot(h, st, now, key), key, s)))
  {
    var slot := Slot(h, st, now, key);
    SlotOfChain(h, st, now, key);
    hide Slot, Chain, Put, NoCollision, HasPrefix, Filed, OneSlot;
    if Holds(st.persistent, key) {
      var own :| own in st.persistent && own.key == key && own.prefix == slot;
      SlotHolds(st.persistent, own);
      PrefixIsLong(st.persistent, own);
      forall f | f in st.persistent && f.prefix == slot ensures f.key == key { }
    } else {
      forall f | f in st.persistent ensures HasPrefix(st.persistent, f.prefix) { SlotHolds(st.persistent, f); }
    }
    PutKeepsChain(st.persistent, Entry(slot, key, s));
  }

  lemma PrefixIsLong(items: seq<Entry>, e: Entry)
    requires Chain(items) && e in items
    ensures |e.prefix| >= MIN_LEN
  {
    var i :| 0 <= i < |items| && items[i] == e;
    assert Linked(items, i);
  }

  /** A persistent set keeps the order, and does what it should. */
  lemma SetKeepsOrder(h: Hash, st: Store, now: int, key: string, s: string)
    requires InOrder(h, st) && NoCollision(h, st.persistent, key)
    ensures InOrder(h, Set(h, st, now, key, Some(s), 0))
    ensures Updates(h, st, Set(h, st, now, key, Some(s), 0), now, key, Some(s))
    ensures forall e :: e in Set(h, st, now, key, Some(s), 0).persistent ==> e.key == key || e in st.persistent
  {
    var e, st' := Entry(Slot(h, st, now, key), key, s), Set(h, st, now, key, Some(s), 0);
    InOrderIsWellFormed(h, st, now);
    SlotIsFreeInOrder(h, st, now, key, s);
    hide Slot, Alive, Scan, Get, Put, Chain, NoCollision, HasPrefix;
    SetKeepsWellFormed(h, st, now, key, Some(s), 0);
    assert st' == Store([], Put(st.persistent, e));
    PutMembers(st.persistent, e);
    SetUpdates(h, st, now, key, s);
    OneSlotOf(st', now);
  }

  lemma SlotHolds(items: seq<Entry>, e: Entry)
    requires e in items
    ensures HasPrefix(items, e.prefix)
  {
    var i :| 0 <= i < |items| && items[i] == e;
    assert items[i].prefix == e.prefix;
  }

  lemma OneSlotOf(st: Store, now: int)
    requires OneSlot(Items(st, now))
    ensures OneSlot(st.persistent)
  {
    assert forall e :: e in st.persistent ==> e in Items(st, now);
  }

  datatype Assignment = Assignment(key: string, secret: string, now: int)

  function RunSets(h: Hash, sets: seq<Assignment>): Store {
    if sets == [] then Store([], [])
    else
      var last := sets[|sets| - 1];
      Set(h, RunSets(h, sets[..|sets| - 1]), last.now, last.key, Some(last.secret), 0)
  }

  function LastSet(sets: seq<Assignment>, key: string): Option<string> {
    if sets == [] then None
    else if sets[|sets| - 1].key == key then Some(sets[|sets| - 1].secret)
    else LastSet(sets[..|sets| - 1], key)
  }

  ghost predicate NoCollisions(h: Hash, sets: seq<Assignment>) {
    forall a, b :: a in sets && b in sets ==> |h(a.key)| == HASH_LEN && (h(a.key) == h(b.key) ==> a.key == b.key)
  }

  /** After any run of persistent sets every key gives the last secret set for it, for
      any hash under which the keys do not collide fully. */
  lemma {:induction false} PersistentRunIsMap(h: Hash, sets: seq<Assignment>, now: int)
    requires NoCollisions(h, sets)
    ensures var st := RunSets(h, sets);
            && InOrder(h, st)
            && (forall e :: e in st.persistent ==> exists a :: a in sets && a.key == e.key)
            && forall x :: Get(h, st, now, x) == LastSet(sets, x)
  {
    hide Get, Set;
    if sets == [] {
      EmptyIsInOrder(h, now);
    } else {
      var init, last := sets[..|sets| - 1], sets[|sets| - 1];
      var st := RunSets(h, init);
      assert forall a :: a in init ==> a in sets;
      PersistentRunIsMap(h, init, now);
      assert NoCollision(h, st.persistent, last.key);
      SetKeepsOrder(h, st, last.now, last.key, last.secret);
      var st' := Set(h, st, last.now, last.key, Some(last.secret), 0);
      assert last in sets;
      forall x ensures Get(h, st', now, x) == LastSet(sets, x) {
        TimeDoesNotMatter(h, st, last.now, now, x);
        TimeDoesNotMatter(h, st', last.now, now, x);
      }
    }
  }

  lemma EmptyIsInOrder(h: Hash, now: int)
    ensures InOrder(h, Store([], [])) && forall x :: Get(h, Store([], []), now, x) == None
  {
    assert Items(Store([], []), now) == [];
  }

  lemma TimeDoesNotMatter(h: Hash, st: Store, now: int, later: int, x: string)
    requires st.volatile == []
    ensures Get(h, st, now, x) == Get(h, st, later, x)
  {}

  // ----- Removing secrets in between

  /** Three other keys whose hashes share the first four digits with b's; c's shares
      the fifth, x's does not. */
  ghost predicate Crowded(h: Hash, a: string, b: string, x: string, c: string) {
    && a != b && a != x && a != c && b != x && b != c && x != c
    && |h(a)| == HASH_LEN && |h(b)| == HASH_LEN && |h(x)| == HASH_LEN && |h(c)| == HASH_LEN
    && h(a)[..4] == h(b)[..4] == h(x)[..4] == h(c)[..4] && h(b)[..5] == h(c)[..5] && h(x)[..5] != h(b)[..5]
  }

  lemma ScanTwo(e: Entry, f: Entry, id: string, key: string)
    requires e.key != key && f.key != key
    ensures Scan([], id, key, MIN_LEN) == Hit(None, MIN_LEN)
    ensures Scan([e], id, key, MIN_LEN) == Hit(None, if e.prefix <= id then |e.prefix| + 1 else MIN_LEN)
    ensures Scan([e, f], id, key, MIN_LEN) ==
      Hit(None, if f.prefix <= id then |f.prefix| + 1 else if e.prefix <= id then |e.prefix| + 1 else MIN_LEN)
  {
    assert [e, f] == [e] + [f] && [e] + [] == [e] && [f] + [] == [f];
    ScanStep(e, [f], id, key, MIN_LEN);
    ScanStep(e, [], id, key, MIN_LEN);
    ScanStep(f, [], id, key, MIN_LEN);
    ScanStep(f, [], id, key, |e.prefix| + 1);
  }

  /** Removing secrets breaks the order: when a secret at the front is removed and its
      short prefix used again, a later key is led to a slot that is in use. */
  lemma RemovingLosesAnother(h: Hash, a: string, b: string, x: string, c: string, st: Store)
    requires Crowded(h, a, b, x, c)
    requires st == Store([], [Entry(h(b)[..5], b, "b"), Entry(h(x)[..4], x, "x")])
    ensures WellFormed(h, st, 0) && Get(h, st, 0, b) == Some("b")
    ensures Get(h, Set(h, st, 0, c, Some("c"), 0), 0, b) == None
  {
    var e, f := st.persistent[0], st.persistent[1];
    var items := st.persistent;
    assert items == [e, f] && Items(st, 0) == items;
    assert forall g :: g in items <==> g == e || g == f;
    assert WellFormed(h, st, 0);
    ScanTwo(e, f, h(c), c);
    assert Slot(h, st, 0, c) == h(c)[..5];
    hide Scan, Slot, Get, Set;
    assert !VolatileKey(st, 0, b);
    OtherIsLost(h, st, 0, c, Some("c"), 0, e);
  }

  lemma SetOnTop(h: Hash, items: seq<Entry>, key: string, s: string)
    requires |items| <= 1 && !Holds(items, key) && |h(key)| == HASH_LEN
    ensures var len := if items != [] && items[0].prefix <= h(key) then |items[0].prefix| + 1 else MIN_LEN;
            len <= HASH_LEN && (items != [] ==> items[0].prefix != h(key)[..len]) ==>
              Set(h, Store([], items), 0, key, Some(s), 0) == Store([], items + [Entry(h(key)[..len], key, s)])
  {
    var st := Store([], items);
    assert Items(st, 0) == items;
    if items != [] { ScanTwo(items[0], items[0], h(key), key); assert items == [items[0]]; }
    var len := Scan(items, h(key), key, MIN_LEN).len;
    if len <= HASH_LEN && (items != [] ==> items[0].prefix != h(key)[..len]) {
      PutNew(items, Entry(h(key)[..len], key, s));
    }
  }

  /** Setting a and b, removing a and setting x leads there. */
  lemma RemovingBreaksOrder(h: Hash, a: string, b: string, x: string, c: string)
    requires Crowded(h, a, b, x, c)
    ensures var s1 := Set(h, Store([], []), 0, a, Some("a"), 0);
            var s2 := Set(h, s1, 0, b, Some("b"), 0);
            var s3 := Set(h, s2, 0, a, None, 0);
            Set(h, s3, 0, x, Some("x"), 0) == Store([], [Entry(h(b)[..5], b, "b"), Entry(h(x)[..4], x, "x")])
  {
    var ea, eb, ex := Entry(h(a)[..4], a, "a"), Entry(h(b)[..5], b, "b"), Entry(h(x)[..4], x, "x");
    SetOnTop(h, [], a, "a");
    SetOnTop(h, [ea], b, "b");
    var s2 := Store([], [ea, eb]);
    assert Items(s2, 0) == [ea, eb] && [ea, eb] == [ea] + [eb];
    ScanStep(ea, [eb], h(a), a, MIN_LEN);
    assert [ea, eb][1..] == [eb];
    SetOnTop(h, [eb], x, "x");
    assert [eb] + [ex] == [eb, ex];
  }
}
