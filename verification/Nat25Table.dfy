/** The chained hash table of core/rtw_br_ext.c: entries linked through next_hash and the
  * pprev_hash back-pointers, and the cache pointer scdb_entry of the transmit path. */
module Nat25Table {
  import opened Wrappers
  import opened Nat25Map
  import opened Nat25Cache

  /* ---------- Addresses and hashing ---------- */

  const NAT25_IPV6: bv8 := 2
  const NAT25_IPX: bv8 := 3
  const NAT25_APPLE: bv8 := 4
  const NAT25_PPPOE: bv8 := 5

  function XorRange(a: seq<bv8>, lo: nat, hi: nat): bv8
    requires lo <= hi <= |a|
    decreases hi - lo
  {
    if lo == hi then 0 else a[lo] ^ XorRange(a, lo + 1, hi)
  }

  function Hash(addr: NetAddr): (h: nat)
    ensures h < NAT25_HASH_SIZE
  {
    var a := addr.bytes;
    var x :=
      if a[0] == NAT25_IPV4 then XorRange(a, 7, 11)
      else if a[0] == NAT25_IPX then XorRange(a, 1, 11)
      else if a[0] == NAT25_APPLE then XorRange(a, 1, 4)
      else if a[0] == NAT25_PPPOE then XorRange(a, 0, 9)
      else if a[0] == NAT25_IPV6 then XorRange(a, 1, 17)
      else XorRange(a, 0, 17);
    (x & 15) as nat
  }

  /* ---------- Entries ---------- */

  /** What pprev_hash points at: a bucket head, or the next_hash field of an entry. */
  datatype Link = NoLink | Head(bucket: nat) | NextOf(e: Entry)

  class Entry {
    const networkAddr: NetAddr
    var nextHash: Entry?
    var pprevHash: Link
    var info: Info       // macAddr, ageing_timer, use_count

    constructor (a: NetAddr, i: Info)
      ensures networkAddr == a && info == i && nextHash == null && pprevHash == NoLink
    {
      networkAddr := a;
      info := i;
      nextHash, pprevHash := null, NoLink;
    }
  }

  type Chain = seq<Entry>

  ghost function At(c: Chain, k: nat): Entry? {
    if k < |c| then c[k] else null
  }

  /** Both links of the k-th entry are exact: next_hash points at the next entry, pprev_hash
    * at the very field that points at this one. */
  ghost predicate NodeOk(h: nat, c: Chain, k: nat)
    requires k < |c|
    reads {c[k]}`nextHash, {c[k]}`pprevHash
  {
    && c[k].nextHash == At(c, k + 1)
    && c[k].pprevHash == (if k == 0 then Head(h) else NextOf(c[k - 1]))
  }

  ghost predicate InBucket(h: nat, c: Chain) {
    forall e :: e in c ==> Hash(e.networkAddr) == h
  }

  ghost predicate DistinctKeys(c: Chain) {
    forall i, j :: 0 <= i < j < |c| ==> c[i].networkAddr != c[j].networkAddr
  }

  /** The list starting at head visits exactly the entries of c, in order; their keys belong
    * to bucket h and do not repeat. */
  ghost predicate Linked(h: nat, c: Chain, head: Entry?)
    reads c`nextHash, c`pprevHash
  {
    && head == At(c, 0)
    && InBucket(h, c)
    && DistinctKeys(c)
    && forall k :: 0 <= k < |c| ==> NodeOk(h, c, k)
  }

  /** __network_hash_link */
  method HashLink(nethash: array<Entry?>, e: Entry, h: nat, ghost c: Chain)
    requires h < nethash.Length && Linked(h, c, nethash[h])
    requires Hash(e.networkAddr) == h
    requires forall k :: 0 <= k < |c| ==> c[k].networkAddr != e.networkAddr
    modifies nethash, e`nextHash, e`pprevHash, c`pprevHash
    ensures Linked(h, [e] + c, nethash[h])
    ensures forall b :: 0 <= b < nethash.Length && b != h ==> nethash[b] == old(nethash[b])
  {
    e.nextHash := nethash[h];
    if e.nextHash != null {
      e.nextHash.pprevHash := NextOf(e);
    }
    nethash[h] := e;
    e.pprevHash := Head(h);

    ghost var c' := [e] + c;
    forall k | 0 <= k < |c'| ensures NodeOk(h, c', k) {
      if k > 0 {
        assert old(NodeOk(h, c, k - 1));
        assert c'[k] == c[k - 1];
      }
    }
  }

  method Walk(head: Entry?, a: NetAddr, ghost h: nat, ghost c: Chain) returns (e: Entry?)
    requires Linked(h, c, head)
    ensures e == null ==> forall f :: f in c ==> f.networkAddr != a
    ensures e != null ==> e in c && e.networkAddr == a
  {
    e := head;
    ghost var k := 0;
    while e != null
      invariant 0 <= k <= |c| && e == At(c, k)
      invariant forall j :: 0 <= j < k ==> c[j].networkAddr != a
      decreases |c| - k
    {
      if e.networkAddr == a {
        return;
      }
      assert NodeOk(h, c, k);
      e := e.nextHash;
      k := k + 1;
    }
  }

  /** c without its k-th entry. */
  ghost function Without(c: Chain, k: nat): (r: Chain)
    requires k < |c|
    ensures |r| == |c| - 1
    ensures forall j :: 0 <= j < |r| ==> r[j] == c[if j < k then j else j + 1]
  {
    c[..k] + c[k + 1..]
  }

  lemma EntriesDiffer(c: Chain)
    requires DistinctKeys(c)
    ensures forall i, j :: 0 <= i < j < |c| ==> c[i] != c[j]
  {
  }

  /** The i-th entry when its neighbours point past the k-th. */
  ghost predicate NodeSkips(h: nat, c: Chain, k: nat, i: nat)
    requires k < |c| && i < |c|
    reads {c[i]}`nextHash, {c[i]}`pprevHash
  {
    i != k ==>
      && c[i].nextHash == At(c, if i + 1 == k then k + 1 else i + 1)
      && c[i].pprevHash == (if i == 0 || (i == 1 && k == 0) then Head(h)
                            else NextOf(c[if i == k + 1 then k - 1 else i - 1]))
  }

  /** __network_hash_unlink, of the entry at position k. */
  method HashUnlink(nethash: array<Entry?>, e: Entry, ghost h: nat, ghost c: Chain, ghost k: nat)
    requires h < nethash.Length && Linked(h, c, nethash[h]) && k < |c| && c[k] == e
    modifies nethash, c`nextHash, c`pprevHash
    ensures nethash[h] == At(c, if k == 0 then 1 else 0)
    ensures forall i :: 0 <= i < |c| ==> NodeSkips(h, c, k, i)
    ensures forall b :: 0 <= b < nethash.Length && b != h ==> nethash[b] == old(nethash[b])
    ensures e.nextHash == null && e.pprevHash == NoLink
  {
    EntriesDiffer(c);
    assert NodeOk(h, c, k);
    if k + 1 < |c| { assert NodeOk(h, c, k + 1); }
    match e.pprevHash {
      case Head(b) => nethash[b] := e.nextHash;
      case NextOf(p) => p.nextHash := e.nextHash;
    }
    if e.nextHash != null {
      e.nextHash.pprevHash := e.pprevHash;
    }
    e.nextHash := null;
    e.pprevHash := NoLink;

    forall i | 0 <= i < |c| ensures NodeSkips(h, c, k, i) {
      assert old(NodeOk(h, c, i));
    }
  }

  lemma SkippedLinked(h: nat, c: Chain, k: nat, head: Entry?)
    requires DistinctKeys(c) && InBucket(h, c) && k < |c|
    requires head == At(c, if k == 0 then 1 else 0)
    requires forall i :: 0 <= i < |c| ==> NodeSkips(h, c, k, i)
    ensures Linked(h, Without(c, k), head)
  {
    var c' := Without(c, k);
    forall j | 0 <= j < |c'| ensures NodeOk(h, c', j) {
      assert NodeSkips(h, c, k, if j < k then j else j + 1);
    }
  }

  /* ---------- All the buckets ---------- */

  ghost function Entries(chains: seq<Chain>): (r: set<Entry>)
    ensures forall h, e :: 0 <= h < |chains| && e in chains[h] ==> e in r
  {
    set h, e | 0 <= h < |chains| && e in chains[h] :: e
  }

  lemma EntriesLink(chains: seq<Chain>, h: nat, e: Entry)
    requires h < |chains|
    ensures Entries(chains[h := [e] + chains[h]]) == Entries(chains) + {e}
  {
    var relinked := chains[h := [e] + chains[h]];
    assert relinked[h][0] == e;
    forall f | f in Entries(chains) ensures f in Entries(relinked) {
      var b :| 0 <= b < |chains| && f in chains[b];
      assert f in relinked[b];
    }
  }

  lemma EntriesUnlink(nethash: array<Entry?>, chains: seq<Chain>, h: nat, k: nat)
    requires Forest(nethash, chains) && h < NAT25_HASH_SIZE && k < |chains[h]|
    ensures Entries(chains[h := Without(chains[h], k)]) == Entries(chains) - {chains[h][k]}
  {
    var e, c := chains[h][k], chains[h];
    var relinked := chains[h := Without(c, k)];
    assert Linked(h, c, nethash[h]);
    assert e in c;
    forall f | f in Entries(chains) && f != e ensures f in Entries(relinked) {
      var b :| 0 <= b < |chains| && f in chains[b];
      if b == h {
        var j :| 0 <= j < |c| && c[j] == f;
        assert Without(c, k)[if j < k then j else j - 1] == f;
      }
      assert f in relinked[b];
    }
    forall f | f in Entries(relinked) ensures f in Entries(chains) && f != e {
      var b :| 0 <= b < |relinked| && f in relinked[b];
      assert Linked(b, chains[b], nethash[b]);
      assert f in chains[b];
    }
  }

  /** Every bucket head starts a well-linked chain of entries that hash to that bucket. */
  ghost predicate Forest(nethash: array<Entry?>, chains: seq<Chain>)
    reads nethash, Entries(chains)`nextHash, Entries(chains)`pprevHash
  {
    && |chains| == nethash.Length == NAT25_HASH_SIZE
    && forall h :: 0 <= h < NAT25_HASH_SIZE ==> Linked(h, chains[h], nethash[h])
  }

  method ForestLink(nethash: array<Entry?>, e: Entry, h: nat, ghost chains: seq<Chain>)
    requires Forest(nethash, chains) && h == Hash(e.networkAddr)
    requires forall k :: 0 <= k < |chains[h]| ==> chains[h][k].networkAddr != e.networkAddr
    modifies nethash, e`nextHash, e`pprevHash, chains[h]`pprevHash
    ensures Forest(nethash, chains[h := [e] + chains[h]])
  {
    assert Linked(h, chains[h], nethash[h]);
    HashLink(nethash, e, h, chains[h]);
    forall b | 0 <= b < NAT25_HASH_SIZE && b != h ensures Linked(b, chains[b], nethash[b]) {
      assert old(Linked(b, chains[b], nethash[b]));
    }
  }

  method ForestUnlink(nethash: array<Entry?>, e: Entry, ghost chains: seq<Chain>, ghost h: nat, ghost k: nat)
    requires Forest(nethash, chains) && h < NAT25_HASH_SIZE && k < |chains[h]| && chains[h][k] == e
    modifies nethash, chains[h]`nextHash, chains[h]`pprevHash
    ensures Forest(nethash, chains[h := Without(chains[h], k)])
  {
    assert Linked(h, chains[h], nethash[h]);
    HashUnlink(nethash, e, h, chains[h], k);
    SkippedLinked(h, chains[h], k, nethash[h]);
    forall b | 0 <= b < NAT25_HASH_SIZE && b != h ensures Linked(b, chains[b], nethash[b]) {
      assert old(Linked(b, chains[b], nethash[b]));
    }
  }

  /* ---------- The table ---------- */

  class Bridge {
    const nethash: array<Entry?>
    const age: nat                      // NAT25_AGEING_TIME * HZ
    var scdbEntry: Entry?
    var scdbMac: Mac
    var scdbIp: Ip
    ghost var chains: seq<Chain>        // what hangs off each bucket
    ghost var repr: set<Entry>          // the entries that are allocated
    ghost var owner: map<NetAddr, Entry>   // the one that carries a key
    ghost var db: Db                    // the map the table stands for

    /** The allocated entries are exactly the linked ones. */
    ghost predicate Shape()
      reads this, nethash, repr`nextHash, repr`pprevHash
    {
      |chains| == NAT25_HASH_SIZE && repr == Entries(chains) && Forest(nethash, chains)
    }

    /** The map has one record for each allocated entry, and no key has two entries. */
    ghost predicate Represents()
      reads this, repr`info
    {
      && (forall e :: e in repr ==> e.networkAddr in owner && owner[e.networkAddr] == e)
      && (forall a :: a in owner ==> owner[a] in repr && owner[a].networkAddr == a)
      && db.Keys == owner.Keys
      && (forall a :: a in owner ==> db[a] == owner[a].info)
    }

    /** The cache pointer is null or an allocated entry, that of the cached IP address. */
    ghost predicate CacheOk()
      reads this
    {
      scdbEntry != null ==> scdbEntry in repr && scdbEntry.networkAddr == Ipv4Addr(scdbIp)
    }

    ghost predicate Valid()
      reads this, nethash, repr
    {
      Shape() && Represents() && CacheOk()
    }

    /** The map and the cache that the table and its three cache fields stand for. */
    ghost function View(): Net
      reads this
    {
      Net(db, Cached(if scdbEntry == null then None else Some(scdbEntry.networkAddr), scdbMac, scdbIp))
    }

    constructor (age: nat)
      ensures Valid() && View() == Net(map[], NOTHING_CACHED) && this.age == age && fresh(repr) && fresh(nethash)
    {
      nethash := new Entry?[NAT25_HASH_SIZE](_ => null);
      this.age := age;
      scdbEntry, scdbMac, scdbIp := null, ZERO_MAC, ZERO_IP;
      chains := seq(NAT25_HASH_SIZE, _ => []);
      repr, owner := {}, map[];
      db := map[];
    }

    /** The walk over one chain that insert, lookup and scdb_findEntry share. */
    method Find(a: NetAddr) returns (e: Entry?)
      requires Valid()
      ensures e == null <==> a !in db
      ensures e != null ==> e in repr && e.networkAddr == a
    {
      var h := Hash(a);
      assert Linked(h, chains[h], nethash[h]);
      if a in db { OnItsChain(owner[a]); }
      e := Walk(nethash[h], a, h, chains[h]);
    }

    /** __nat25_db_network_lookup_and_replace: the MAC to put in the frame, if any. */
    method Lookup(a: NetAddr, now: Jiffies) returns (found: bool, mac: Option<Mac>)
      requires Valid()
      modifies repr, `db
      ensures Valid() && db == Step(age, old(db), Timed(Event.Lookup(a), now))
      ensures found <==> a in old(db)
      ensures mac == Answer(age, old(db), a, now)
    {
      hide Forest, Ipv4Addr, Entries;
      var e := Find(a);
      if e == null {
        return false, None;
      }
      found, mac := true, None;
      if !Expired(age, e.info.timer, now) {
        mac := Some(e.info.mac);
        SetInfo(e, e.info.(useCount := Wrap32(e.info.useCount + 1)));
      }
    }

    /** An allocated entry is on the chain of its own bucket. */
    lemma OnItsChain(e: Entry)
      requires Shape() && e in repr
      ensures e in chains[Hash(e.networkAddr)]
    {
      var h :| 0 <= h < NAT25_HASH_SIZE && e in chains[h];
      assert Linked(h, chains[h], nethash[h]);
    }

    /** Writing an entry's fields is writing the record of its key. */
    method SetInfo(e: Entry, i: Info)
      requires Valid() && e in repr
      modifies e`info, `db
      ensures Valid() && e.info == i && db == old(db)[e.networkAddr := i]
    {
      hide Forest, Ipv4Addr, Entries;
      e.info := i;
      db := db[e.networkAddr := i];
    }

    /** __nat25_db_network_insert */
    method Insert(a: NetAddr, mac: Mac, now: Jiffies)
      requires Valid()
      modifies this, nethash, repr
      ensures Valid() && fresh(repr - old(repr))
      ensures db == Step(age, old(db), Timed(Event.Insert(a, mac), now))
      ensures View().cache == old(View()).cache
    {
      hide Forest, Ipv4Addr, Entries;
      var e := Find(a);
      if e != null {
        SetInfo(e, Info(mac, now, e.info.useCount));
      } else {
        e := new Entry(a, Info(mac, now, 1));
        AddEntry(e);
      }
    }

    /** Puts a new entry at the front of its chain. */
    method Attach(e: Entry)
      requires Shape() && e !in repr
      requires forall f :: f in repr ==> f.networkAddr != e.networkAddr
      modifies this`chains, this`repr, nethash, repr`pprevHash, e`nextHash, e`pprevHash
      ensures Shape() && repr == old(repr) + {e}
    {
      hide Forest, Ipv4Addr;
      var h := Hash(e.networkAddr);
      forall k | 0 <= k < |chains[h]| ensures chains[h][k].networkAddr != e.networkAddr {
        assert chains[h][k] in chains[h] && chains[h][k] in repr;
      }
      EntriesLink(chains, h, e);
      ForestLink(nethash, e, h, chains);
      chains := chains[h := [e] + chains[h]];
      repr := repr + {e};
    }

    /** Puts a new entry on its chain and its record in the map. */
    method AddEntry(e: Entry)
      requires Valid() && e !in repr && e.networkAddr !in db
      modifies this`chains, this`repr, this`db, this`owner, nethash, repr`pprevHash, e`nextHash, e`pprevHash
      ensures Valid() && repr == old(repr) + {e} && db == old(db)[e.networkAddr := e.info]
    {
      hide Forest, Ipv4Addr, Entries;
      Attach(e);
      db := db[e.networkAddr := e.info];
      owner := owner[e.networkAddr := e];
    }

    /** Takes the k-th entry of bucket h off its chain. */
    method Detach(e: Entry, ghost h: nat, ghost k: nat)
      requires Shape() && h < NAT25_HASH_SIZE && k < |chains[h]| && chains[h][k] == e
      modifies this`chains, this`repr, nethash, repr`nextHash, repr`pprevHash
      ensures Shape() && repr == old(repr) - {e}
      ensures chains == old(chains)[h := Without(old(chains[h]), k)]
    {
      hide Forest, Ipv4Addr, Entries;
      EntriesUnlink(nethash, chains, h, k);
      ForestUnlink(nethash, e, chains, h, k);
      chains := chains[h := Without(chains[h], k)];
      repr := repr - {e};
    }

    /** Takes the k-th entry of bucket h off its chain and frees it; the cache pointer is
      * cleared with it. */
    method DropEntry(e: Entry, ghost h: nat, ghost k: nat)
      requires Valid() && h < NAT25_HASH_SIZE && k < |chains[h]| && chains[h][k] == e
      modifies this, nethash, repr`nextHash, repr`pprevHash
      ensures Valid() && repr == old(repr) - {e} && db == old(db) - {e.networkAddr}
      ensures chains == old(chains)[h := Without(old(chains[h]), k)]
      ensures View().cache == Surviving(old(View()).cache, db)
    {
      hide Forest, Ipv4Addr, Entries;
      if scdbEntry == e {
        scdbMac, scdbIp, scdbEntry := ZERO_MAC, ZERO_IP, null;
      }
      assert e in chains[h] && e in repr;
      Detach(e, h, k);
      db := db - {e.networkAddr};
      owner := owner - {e.networkAddr};
    }

    /** What nat25_db_expire does with one entry. */
    method SweepEntry(f: Entry, now: Jiffies, ghost h: nat, ghost k: nat)
      requires Valid() && h < NAT25_HASH_SIZE && k < |chains[h]| && chains[h][k] == f
      modifies this, nethash, repr
      ensures Valid() && repr <= old(repr) && f.networkAddr in old(db)
      ensures var s := SweepInfo(age, old(db)[f.networkAddr], now);
        if s.Some? then db == old(db)[f.networkAddr := s.value] && chains == old(chains)
        else db == old(db) - {f.networkAddr} && chains == old(chains)[h := Without(old(chains[h]), k)]
      ensures View().cache == Surviving(old(View()).cache, db)
    {
      hide Forest, Ipv4Addr, Entries;
      assert f in chains[h] && f in repr;
      if Expired(age, f.info.timer, now) {
        var count := Wrap32(f.info.useCount - 1);   // atomic_dec_and_test
        if count == 0 {
          DropEntry(f, h, k);
        } else {
          SetInfo(f, f.info.(useCount := count));
        }
      }
    }

    /** What the walk over bucket h needs to know of its k-th entry. */
    lemma ChainAt(h: nat, k: nat)
      requires Shape() && h < NAT25_HASH_SIZE && k < |chains[h]|
      ensures chains[h][k].nextHash == At(chains[h], k + 1) && Hash(chains[h][k].networkAddr) == h
      ensures forall j :: 0 <= j < |chains[h]| && j != k ==> chains[h][j].networkAddr != chains[h][k].networkAddr
    {
      assert Linked(h, chains[h], nethash[h]) && NodeOk(h, chains[h], k);
      assert chains[h][k] in chains[h];
    }

    lemma CachedSurvives()
      requires Valid()
      ensures Surviving(View().cache, db) == View().cache
    {
    }

    lemma HeadAt(h: nat)
      requires Shape() && h < NAT25_HASH_SIZE
      ensures h < nethash.Length && nethash[h] == At(chains[h], 0)
    {
      assert Linked(h, chains[h], nethash[h]);
    }

    /** One bucket of the sweep.  done is what earlier buckets have swept of the map m. */
    method SweepBucket(h: nat, now: Jiffies, ghost m: Db, ghost done: set<NetAddr>)
      requires Valid() && h < NAT25_HASH_SIZE
      requires db == SweptOn(age, m, now, done)
      requires forall a :: a in done ==> Hash(a) != h
      modifies this, nethash, repr
      ensures Valid() && repr <= old(repr)
      ensures db == SweptOn(age, m, now, done + BucketKeys(m, h))
      ensures View().cache == Surviving(old(View()).cache, db)
    {
      hide Ipv4Addr, Entries, Hash, Forest, Represents, CacheOk;
      HeadAt(h);
      CachedSurvives();
      var f := nethash[h];
      ghost var k, swept := 0, done;
      forall j | 0 <= j < |chains[h]| ensures chains[h][j].networkAddr !in swept {
        ChainAt(h, j);
      }
      while f != null
        invariant Valid() && repr <= old(repr)
        invariant 0 <= k <= |chains[h]| && f == At(chains[h], k)
        invariant db == SweptOn(age, m, now, swept)
        invariant View().cache == Surviving(old(View()).cache, db)
        invariant done <= swept <= done + BucketKeys(m, h)
        invariant forall j :: 0 <= j < k ==> chains[h][j].networkAddr in swept
        invariant forall j :: k <= j < |chains[h]| ==> chains[h][j].networkAddr !in swept
        decreases |chains[h]| - k
      {
        ChainAt(h, k);
        var g := f.nextHash;
        SweepEntry(f, now, h, k);
        SweptOnStep(age, m, now, swept, f.networkAddr);
        swept := swept + {f.networkAddr};
        if f.networkAddr in db {
          k := k + 1;
        }
        f := g;
      }
      AllSwept(m, now, swept, h);
      assert swept == done + BucketKeys(m, h);
    }

    /** A key the sweep has not visited is still on the chain of its bucket. */
    lemma AllSwept(m: Db, now: Jiffies, swept: set<NetAddr>, h: nat)
      requires Valid() && h < NAT25_HASH_SIZE
      requires db == SweptOn(age, m, now, swept)
      requires forall j :: 0 <= j < |chains[h]| ==> chains[h][j].networkAddr in swept
      ensures BucketKeys(m, h) <= swept
    {
      forall a | a in BucketKeys(m, h) ensures a in swept {
        if a !in swept {
          assert a in db;
          OnItsChain(owner[a]);
        }
      }
    }

    /** nat25_db_expire */
    method Expire(now: Jiffies)
      requires Valid()
      modifies this, nethash, repr
      ensures Valid() && repr <= old(repr) && View() == NetStep(age, old(View()), TimedCall(Call.Sweep, now))
    {
      hide Shape, Represents, CacheOk;
      CachedSurvives();
      ghost var m, done := db, {};
      var i := 0;
      assert SweptOn(age, m, now, done) == db;
      while i < NAT25_HASH_SIZE
        invariant 0 <= i <= NAT25_HASH_SIZE && Valid() && repr <= old(repr)
        invariant db == SweptOn(age, m, now, done)
        invariant View().cache == Surviving(old(View()).cache, db)
        invariant forall a :: a in done ==> Hash(a) < i
        invariant forall a :: a in m && Hash(a) < i ==> a in done
      {
        SweepBucket(i, now, m, done);
        done := done + BucketKeys(m, i);
        i := i + 1;
      }
      assert SweptOn(age, m, now, done) == SweepMap(age, m, now);
    }

    /** nat25_db_cleanup, one bucket. */
    method CleanBucket(h: nat)
      requires Valid() && h < NAT25_HASH_SIZE
      modifies this, nethash, repr
      ensures Valid() && repr <= old(repr) && chains == old(chains)[h := []]
      ensures View().cache == Surviving(old(View()).cache, db)
    {
      hide Represents, CacheOk, Entries, Hash;
      CachedSurvives();
      var f := nethash[h];
      while f != null
        invariant Valid() && repr <= old(repr) && f == At(chains[h], 0)
        invariant |chains| == |old(chains)| && chains[h := []] == old(chains)[h := []]
        invariant View().cache == Surviving(old(View()).cache, db)
        decreases |chains[h]|
      {
        assert Linked(h, chains[h], nethash[h]) && NodeOk(h, chains[h], 0);
        var g := f.nextHash;
        DropEntry(f, h, 0);
        f := g;
      }
      assert chains == chains[h := []];
    }

    /** nat25_db_cleanup */
    method Cleanup(now: Jiffies)
      requires Valid()
      modifies this, nethash, repr
      ensures Valid() && repr == {} && View() == NetStep(age, old(View()), TimedCall(Call.Cleanup, now))
    {
      hide Forest;
      CachedSurvives();
      var i := 0;
      while i < NAT25_HASH_SIZE
        invariant 0 <= i <= NAT25_HASH_SIZE && Valid() && repr <= old(repr)
        invariant View().cache == Surviving(old(View()).cache, db)
        invariant forall h :: 0 <= h < i ==> chains[h] == []
      {
        CleanBucket(i);
        i := i + 1;
      }
      assert repr == {};
      assert owner == map[];
    }

    /** scdb_findEntry */
    method FindEntry(ip: Ip) returns (e: Entry?)
      requires Valid()
      ensures e == null <==> Ipv4Addr(ip) !in db
      ensures e != null ==> e in repr && e.networkAddr == Ipv4Addr(ip)
    {
      e := Find(Ipv4Addr(ip));
    }

    /** The cached entry is stamped with the time. */
    method Restamp(now: Jiffies)
      requires Valid() && scdbEntry != null
      modifies scdbEntry`info, `db
      ensures Valid() && db == Step(age, old(db), Timed(Refresh(scdbEntry.networkAddr), now))
    {
      hide Forest, Entries, Hash, Ipv4Addr;
      SetInfo(scdbEntry, scdbEntry.info.(timer := now));
    }

    /** What the transmit path does for an IPv4 frame from (mac, ip); the frame skips the
      * database when an entry is cached afterwards. */
    method Transmit(mac: Mac, ip: Ip, now: Jiffies) returns (skip: bool)
      requires Valid()
      modifies this, repr`info
      ensures Valid() && repr == old(repr) && (skip <==> scdbEntry != null)
      ensures View() == NetStep(age, old(View()), TimedCall(Call.Transmit(mac, ip), now))
    {
      hide Forest, Entries, Hash, Step, Ipv4Addr;
      skip := false;
      if scdbMac != mac {
        scdbEntry := FindEntry(ip);
        if scdbEntry != null {
          scdbMac, scdbIp := mac, ip;
          skip := true;
        }
      } else if scdbEntry != null {
        skip := true;
      } else {
        scdbMac, scdbIp := ZERO_MAC, ZERO_IP;
      }
      if skip {
        Restamp(now);
      }
    }

    /** Any run of calls on the table is the run of map and cache; in particular the chains stay
      * exact, and no entry is freed that the cache still points at. */
    method Replay(ts: seq<TimedCall>)
      requires Valid()
      modifies this, nethash, repr
      ensures Valid() && View() == NetRun(age, old(View()), ts)
    {
      hide Shape, Represents, CacheOk, NetStep;
      ghost var n := View();
      var i := 0;
      while i < |ts|
        invariant 0 <= i <= |ts| && Valid() && View() == NetRun(age, n, ts[..i])
        invariant fresh(repr - old(repr))
      {
        Do(ts[i]);
        assert ts[..i + 1][..i] == ts[..i];
        i := i + 1;
      }
      assert ts[..i] == ts;
    }

    method Do(t: TimedCall)
      requires Valid()
      modifies this, nethash, repr
      ensures Valid() && fresh(repr - old(repr)) && View() == NetStep(age, old(View()), t)
    {
      hide Forest, Entries, Hash, Step, Ipv4Addr;
      CachedSurvives();
      match t.call {
        case Insert(a, mac) => Insert(a, mac, t.now);
        case Lookup(a) => var _, _ := Lookup(a, t.now);
        case Sweep => Expire(t.now);
        case Cleanup => Cleanup(t.now);
        case Transmit(mac, ip) => var _ := Transmit(mac, ip, t.now);
      }
      CachedSurvives();
    }
  }

  /** The keys of m that live in bucket h. */
  ghost function BucketKeys(m: Db, h: nat): set<NetAddr> {
    set a | a in m && Hash(a) == h
  }

  /** m after a sweep has visited the keys in done. */
  ghost function SweptOn(age: nat, m: Db, now: Jiffies, done: set<NetAddr>): Db {
    map a | a in m && (a in done ==> SweepInfo(age, m[a], now).Some?) ::
      if a in done then SweepInfo(age, m[a], now).value else m[a]
  }

  lemma SweptOnStep(age: nat, m: Db, now: Jiffies, done: set<NetAddr>, a: NetAddr)
    requires a in SweptOn(age, m, now, done) && a !in done
    ensures var s, r := SweepInfo(age, m[a], now), SweptOn(age, m, now, done);
      && r[a] == m[a]
      && SweptOn(age, m, now, done + {a}) == if s.Some? then r[a := s.value] else r - {a}
  {
  }
}
