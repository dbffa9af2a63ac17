/**
  The cache of imported capture buffers in
  gst-plugin-vfmcap/gst_streambox_src.c:386-447.
 */
module InputCache {
  const SIZE := 8

  /** `Vdin1VkCacheEntry`; `import` names the Vulkan buffer and memory. */
  datatype Entry = Entry(fd: int, size: nat, valid: bool, lastUsed: nat, import_: nat)

  datatype Key = Key(fd: int, size: nat)

  function KeyOf(e: Entry): Key { Key(e.fd, e.size) }

  /** A duplicated descriptor and an import that works, or not. */
  datatype Imported = Failed | New(import_: nat)

  /** No key twice among the valid entries. */
  ghost predicate Distinct(es: seq<Entry>) {
    forall i, j | 0 <= i < j < |es| && es[i].valid && es[j].valid :: KeyOf(es[i]) != KeyOf(es[j])
  }

  /** The valid entries as a plain map. */
  ghost function MapOf(es: seq<Entry>): (m: map<Key, nat>)
    requires Distinct(es)
  {
    map i | 0 <= i < |es| && es[i].valid :: KeyOf(es[i]) := es[i].import_
  }

  lemma MapHas(es: seq<Entry>, i: nat)
    requires Distinct(es) && i < |es| && es[i].valid
    ensures KeyOf(es[i]) in MapOf(es) && MapOf(es)[KeyOf(es[i])] == es[i].import_
  {}

  lemma MapFrom(es: seq<Entry>, k: Key) returns (i: nat)
    requires Distinct(es) && k in MapOf(es)
    ensures i < |es| && es[i].valid && KeyOf(es[i]) == k && MapOf(es)[k] == es[i].import_
  {
    i :| 0 <= i < |es| && es[i].valid && KeyOf(es[i]) == k;
    MapHas(es, i);
  }

  lemma RemoveEntry(es: seq<Entry>, e: nat, x: Entry)
    requires Distinct(es) && e < |es| && es[e].valid && !x.valid
    ensures Distinct(es[e := x]) && MapOf(es[e := x]) == MapOf(es) - {KeyOf(es[e])}
  {
    var m, r := MapOf(es[e := x]), MapOf(es) - {KeyOf(es[e])};
    forall k | k in m || k in r
      ensures k in m && k in r && m[k] == r[k]
    {
      if k in m {
        var i := MapFrom(es[e := x], k);
        MapHas(es, i);
        assert KeyOf(es[i]) != KeyOf(es[e]);
      } else {
        var i := MapFrom(es, k);
        MapHas(es[e := x], i);
      }
    }
  }

  lemma AddEntry(es: seq<Entry>, s: nat, x: Entry)
    requires Distinct(es) && s < |es| && !es[s].valid && x.valid && KeyOf(x) !in MapOf(es)
    ensures Distinct(es[s := x]) && MapOf(es[s := x]) == MapOf(es)[KeyOf(x) := x.import_]
  {
    forall i | 0 <= i < |es| && es[i].valid
      ensures KeyOf(es[i]) != KeyOf(x)
    {
      MapHas(es, i);
    }
    var m, r := MapOf(es[s := x]), MapOf(es)[KeyOf(x) := x.import_];
    MapHas(es[s := x], s);
    forall k | k in m || k in r
      ensures k in m && k in r && m[k] == r[k]
    {
      if k in m {
        var i := MapFrom(es[s := x], k);
        if i != s { MapHas(es, i); }
      } else if k != KeyOf(x) {
        var i := MapFrom(es, k);
        MapHas(es[s := x], i);
      }
    }
  }

  lemma SameMap(es: seq<Entry>, t: seq<Entry>)
    requires Distinct(es) && Distinct(t) && |es| == |t|
    requires forall i | 0 <= i < |es| ::
              es[i].valid == t[i].valid && KeyOf(es[i]) == KeyOf(t[i]) && es[i].import_ == t[i].import_
    ensures MapOf(es) == MapOf(t)
  {
    SubMap(es, t);
    SubMap(t, es);
  }

  lemma SubMap(es: seq<Entry>, t: seq<Entry>)
    requires Distinct(es) && Distinct(t) && |es| == |t|
    requires forall i | 0 <= i < |es| ::
              es[i].valid == t[i].valid && KeyOf(es[i]) == KeyOf(t[i]) && es[i].import_ == t[i].import_
    ensures forall k | k in MapOf(es) :: k in MapOf(t) && MapOf(t)[k] == MapOf(es)[k]
  {
    hide MapOf;
    forall k | k in MapOf(es)
      ensures k in MapOf(t) && MapOf(t)[k] == MapOf(es)[k]
    {
      var j := MapFrom(es, k);
      MapHas(t, j);
    }
  }

  class Cache {
    var entries: seq<Entry>
    var count: nat
    /** Imports that have been destroyed. */
    ghost var destroyed: set<nat>

    ghost predicate Valid()
      reads this
    {
      && |entries| == SIZE && count <= SIZE
      && (forall i | count <= i < SIZE :: !entries[i].valid)
      && Distinct(entries)
      && (forall i, j | 0 <= i < j < SIZE && entries[i].valid && entries[j].valid ::
          entries[i].import_ != entries[j].import_)
      && (forall i | 0 <= i < SIZE && entries[i].valid :: entries[i].import_ !in destroyed)
    }

    /** The cache as a plain map. */
    ghost function Map(): (m: map<Key, nat>)
      requires Valid()
      reads this
    {
      MapOf(entries)
    }

    lemma MapAt(i: nat)
      requires Valid() && i < SIZE && entries[i].valid
      ensures KeyOf(entries[i]) in Map() && Map()[KeyOf(entries[i])] == entries[i].import_
    {
      MapHas(entries, i);
    }

    constructor ()
      ensures Valid() && Map() == map[] && count == 0 && destroyed == {}
    {
      entries := seq(SIZE, _ => Entry(-1, 0, false, 0, 0));
      count := 0;
      destroyed := {};
    }

    /** The search for an existing import. */
    method Find(fd: int, size: nat) returns (i: int)
      requires Valid()
      ensures -1 <= i < count
      ensures i >= 0 ==> entries[i].valid && KeyOf(entries[i]) == Key(fd, size)
      ensures i == -1 ==> Key(fd, size) !in Map()
    {
      i := 0;
      while i < count
        invariant 0 <= i <= count
        invariant forall k | 0 <= k < i :: !(entries[k].valid && KeyOf(entries[k]) == Key(fd, size))
      {
        if entries[i].valid && entries[i].fd == fd && entries[i].size == size { return; }
        i := i + 1;
      }
      if Key(fd, size) in Map() { var k := MapFrom(entries, Key(fd, size)); }
      i := -1;
    }

    /** The slot to evict: the first of those used longest ago. */
    method Oldest() returns (slot: nat)
      requires |entries| == SIZE
      ensures slot < SIZE && forall k | 0 <= k < SIZE :: entries[slot].lastUsed <= entries[k].lastUsed
    {
      slot := 0;
      var i := 1;
      while i < SIZE
        invariant 1 <= i <= SIZE && slot < i && forall k | 0 <= k < i :: entries[slot].lastUsed <= entries[k].lastUsed
      {
        if entries[i].lastUsed < entries[slot].lastUsed { slot := i; }
        i := i + 1;
      }
    }

    /** A hit only notes the use. */
    method Touch(i: nat, now: nat)
      requires Valid() && i < count && entries[i].valid
      modifies this`entries
      ensures Valid() && entries == old(entries)[i := old(entries[i]).(lastUsed := now)] && Map() == old(Map())
      ensures KeyOf(entries[i]) in Map() && Map()[KeyOf(entries[i])] == entries[i].import_
    {
      SameMap(entries, entries[i := entries[i].(lastUsed := now)]);
      entries := entries[i := entries[i].(lastUsed := now)];
      MapAt(i);
    }

    /** A slot for a new import: an unused one, or that of a least recently used entry, which is destroyed. */
    method Claim() returns (s: nat)
      requires Valid()
      modifies this
      ensures Valid() && s < count && !entries[s].valid
      ensures old(count) < SIZE ==> count == old(count) + 1 && destroyed == old(destroyed) && Map() == old(Map())
      ensures old(count) == SIZE ==> count == SIZE && Evicted(s, old(entries), old(Map()), old(destroyed))
    {
      if count < SIZE {
        s := count;
        count := count + 1;
      } else {
        s := Oldest();
        if entries[s].valid {
          destroyed := destroyed + {entries[s].import_};
          RemoveEntry(entries, s, entries[s].(valid := false, fd := -1));
          entries := entries[s := entries[s].(valid := false, fd := -1)];
        }
      }
    }

    /** Entry `e`, used no later than any other, is gone with its import, and nothing else is. */
    ghost predicate Evicted(e: nat, was: seq<Entry>, m: map<Key, nat>, gone: set<nat>)
      requires Valid() && |was| == SIZE
      reads this
    {
      && e < SIZE
      && (forall k | 0 <= k < SIZE :: was[e].lastUsed <= was[k].lastUsed)
      && destroyed == gone + (if was[e].valid then {was[e].import_} else {})
      && Map() == m - (if was[e].valid then {KeyOf(was[e])} else {})
    }

    /** Entry `e` has been evicted and, if the import worked, replaced. */
    ghost predicate Replaced(e: nat, was: seq<Entry>, m: map<Key, nat>, gone: set<nat>, key: Key, fresh_: Imported)
      requires Valid() && |was| == SIZE
      reads this
    {
      && e < SIZE && count == SIZE
      && (forall k | 0 <= k < SIZE :: was[e].lastUsed <= was[k].lastUsed)
      && destroyed == gone + (if was[e].valid then {was[e].import_} else {})
      && var kept := m - (if was[e].valid then {KeyOf(was[e])} else {});
         Map() == if fresh_.New? then kept[key := fresh_.import_] else kept
    }

    /** The new entry. */
    method Store(s: nat, fd: int, size: nat, now: nat, import_: nat)
      requires Valid() && s < count && !entries[s].valid && Key(fd, size) !in Map()
      requires import_ !in destroyed && import_ !in Map().Values
      modifies this`entries
      ensures Valid() && Map() == old(Map())[Key(fd, size) := import_]
      ensures entries == old(entries)[s := Entry(fd, size, true, now, import_)]
    {
      NewEntry(Key(fd, size), import_);
      AddEntry(entries, s, Entry(fd, size, true, now, import_));
      entries := entries[s := Entry(fd, size, true, now, import_)];
    }

    lemma NewEntry(k: Key, import_: nat)
      requires Valid() && k !in Map() && import_ !in Map().Values
      ensures forall i | 0 <= i < SIZE && entries[i].valid :: KeyOf(entries[i]) != k && entries[i].import_ != import_
    {
      forall i | 0 <= i < SIZE && entries[i].valid
        ensures KeyOf(entries[i]) != k && entries[i].import_ != import_
      {
        MapAt(i);
      }
    }

    lemma FreshApart(import_: nat)
      requires Valid() && import_ !in Map().Values
      ensures forall i | 0 <= i < SIZE && entries[i].valid :: entries[i].import_ != import_
    {
      forall i | 0 <= i < SIZE && entries[i].valid
        ensures entries[i].import_ != import_
      {
        MapAt(i);
      }
    }

    /** Claiming a slot does not make a fresh import stale. */
    lemma StillFresh(import_: nat, was: seq<Entry>, m: map<Key, nat>, gone: set<nat>, s: nat)
      requires Valid() && |was| == SIZE && import_ !in m.Values && import_ !in gone
      requires forall i | 0 <= i < SIZE && was[i].valid :: was[i].import_ != import_
      requires (Map() == m && destroyed == gone) || Evicted(s, was, m, gone)
      ensures import_ !in Map().Values && import_ !in destroyed
    {
      forall k | k in Map()
        ensures Map()[k] != import_
      {
        assert k in m && m[k] == Map()[k];
      }
    }

    /**
      `vdin1_vk_input_cache_get`. A hit changes no import; a miss adds the
      key, and when all slots are taken first evicts a least recently used
      entry. A failed import leaves its slot taken but empty.
     */
    method Get(fd: int, size: nat, now: nat, fresh_: Imported) returns (slot: int)
      requires Valid()
      requires fresh_.New? ==> fresh_.import_ !in destroyed && fresh_.import_ !in Map().Values
      modifies this
      ensures Valid() && -1 <= slot < count && (old(Key(fd, size) in Map()) ==> slot >= 0)
      ensures slot >= 0 ==> Key(fd, size) in Map() && Map()[Key(fd, size)] == entries[slot].import_
      ensures slot >= 0 ==> entries[slot].valid && entries[slot].lastUsed == now
      ensures old(Key(fd, size) in Map()) ==> Map() == old(Map()) && destroyed == old(destroyed) && count == old(count)
      ensures !old(Key(fd, size) in Map()) && old(count) < SIZE ==>
                && count == old(count) + 1 && destroyed == old(destroyed)
                && Map() == if fresh_.New? then old(Map())[Key(fd, size) := fresh_.import_] else old(Map())
      ensures !old(Key(fd, size) in Map()) && old(count) == SIZE ==> exists e: nat | e < SIZE :: Replaced(
                e, old(entries), old(Map()), old(destroyed), Key(fd, size), fresh_)
    {
      var i := Find(fd, size);
      if i >= 0 {
        Touch(i, now);
        return i;
      }
      ghost var was, m, gone := entries, Map(), destroyed;
      if fresh_.New? { FreshApart(fresh_.import_); }
      var s := Claim();
      if fresh_.New? { StillFresh(fresh_.import_, was, m, gone, s); }
      match fresh_ {
        case Failed =>
          slot := -1;
        case New(import_) =>
          Store(s, fd, size, now, import_);
          slot := s;
      }
      if |was| == SIZE && old(count) == SIZE { assert Replaced(s, was, m, gone, Key(fd, size), fresh_); }
    }
  }

  lemma {:induction false} SubsetSize(a: set<Key>, b: set<Key>)
    requires a <= b
    ensures |a| <= |b|
  {
    if a != {} {
      var k :| k in a;
      SubsetSize(a - {k}, b - {k});
    }
  }

  /** `b` keeps every import of `a`. */
  predicate Keeps(a: map<Key, nat>, b: map<Key, nat>) { forall k | k in a :: k in b && b[k] == a[k] }

  /** Every slot taken holds a valid entry of one of `keys`, and nothing has been destroyed. */
  ghost predicate Unevicted(c: Cache, keys: set<Key>, n: nat)
    reads c
  {
    && c.Valid() && c.destroyed == {}
    && c.Map().Keys <= keys && |c.Map().Keys| == c.count && (forall k | k in c.Map() :: c.Map()[k] < n)
  }

  /** One request of the session; `n` is the next unused import. */
  method Request(c: Cache, keys: set<Key>, k: Key, n: nat)
    requires Unevicted(c, keys, n) && k in keys && |keys| <= SIZE
    modifies c
    ensures Unevicted(c, keys, n + 1) && k in c.Map() && Keeps(old(c.Map()), c.Map())
  {
    hide Cache.Valid, Cache.Map;
    ghost var before := c.Map();
    if k !in before { Room(before.Keys, keys, k); }
    var slot := c.Get(k.fd, k.size, n, New(n));
    if k !in before {
      assert c.Map() == before[k := n];
      assert c.Map().Keys == before.Keys + {k};
    }
  }

  /**
    With at most eight distinct capture buffers and no failed import nothing
    is ever evicted: no import is destroyed or exchanged in the whole session.
   */
  method Session(requests: seq<Key>, keys: set<Key>) returns (c: Cache)
    requires |keys| <= SIZE && forall k | k in requests :: k in keys
    ensures c.Valid() && c.destroyed == {} && forall k | k in requests :: k in c.Map()
  {
    hide Cache.Valid, Cache.Map;
    c := new Cache();
    var n := 0;
    while n < |requests|
      invariant 0 <= n <= |requests| && fresh(c) && Unevicted(c, keys, n)
      invariant forall k | k in requests[..n] :: k in c.Map()
    {
      Request(c, keys, requests[n], n);
      assert requests[..n + 1] == requests[..n] + [requests[n]];
      n := n + 1;
    }
    assert requests[..n] == requests;
  }

  lemma Room(used: set<Key>, keys: set<Key>, k: Key)
    requires used <= keys && k in keys && k !in used && |keys| <= SIZE
    ensures |used| < SIZE
  {
    SubsetSize(used + {k}, keys);
  }
}
