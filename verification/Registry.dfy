/** The connection registry: connections by stable key, the dictionaries from source
    connection IDs and, for zero-length IDs, from peer addresses to keys, the queue of
    active connections, and two counters.

    The quiche connection behind an entry is an oracle: it may change its source IDs at
    any time, but hands every ID it drops to its retirement queue. */
module Registry {
  import opened Basics

  /** A connection ID of at most twenty bytes. */
  type Cid = b: Bytes | |b| <= 20

  type Key = nat

  type Addr = nat

  /** A network path of a connection. */
  datatype NetPath = NetPath(peer: Addr, active: bool, validated: bool)

  /** The peer of the first active path. */
  function FirstActive(paths: seq<NetPath>): (r: Option<Addr>)
    ensures r == None <==> forall i :: 0 <= i < |paths| ==> !paths[i].active
    ensures forall i :: 0 <= i < |paths| && paths[i].active && (forall j :: 0 <= j < i ==> !paths[j].active) ==>
              r == Some(paths[i].peer)
  {
    if paths == [] then None else if paths[0].active then Some(paths[0].peer) else FirstActive(paths[1..])
  }

  /** The peer of the first validated path. */
  function FirstValidated(paths: seq<NetPath>): (r: Option<Addr>)
    ensures r == None <==> forall i :: 0 <= i < |paths| ==> !paths[i].validated
    ensures forall i :: 0 <= i < |paths| && paths[i].validated && (forall j :: 0 <= j < i ==> !paths[j].validated) ==>
              r == Some(paths[i].peer)
  {
    if paths == [] then None else if paths[0].validated then Some(paths[0].peer) else FirstValidated(paths[1..])
  }

  datatype Connection = Connection(server: bool, verified: bool, sources: seq<Cid>, retired: seq<Cid>,
                                   paths: seq<NetPath>)
  {
    /** The address it is entered under, if its ID is empty. */
    function PeerAddr(peer: Addr): (r: Addr)
      ensures (forall i :: 0 <= i < |paths| ==> !paths[i].active) ==> r == peer
      ensures forall i :: 0 <= i < |paths| && paths[i].active && (forall j :: 0 <= j < i ==> !paths[j].active) ==>
                r == paths[i].peer
    {
      var active := FirstActive(paths);
      if active.Some? then active.value else peer
    }

    /** The address whose entry its removal takes out, if all its IDs are empty. */
    ghost function ForgottenAddr(): (r: Option<Addr>)
      ensures r.Some? <==> Owned() == {} && exists i :: 0 <= i < |paths| && paths[i].validated
      ensures r.Some? ==> r == FirstValidated(paths)
    {
      if Owned() == {} then FirstValidated(paths) else None
    }

    ghost function Ids(): set<Cid> { Elements(sources) + Elements(retired) }

    /** The IDs that are, or until the queue is drained still may be, its own. The
        zero-length ID is nobody's: it is routed by address. */
    ghost function Owned(): set<Cid> { Ids() - {[]} }
  }

  ghost function Elements<T>(s: seq<T>): set<T> { set i | 0 <= i < |s| :: s[i] }

  lemma ElementsPush<T>(s: seq<T>, x: T)
    ensures Elements(s + [x]) == Elements(s) + {x}
  {
    forall y | y in Elements(s) + {x} ensures y in Elements(s + [x]) {
      if y == x {
        assert (s + [x])[|s|] == x;
      } else {
        var i :| 0 <= i < |s| && s[i] == y;
        assert (s + [x])[i] == y;
      }
    }
  }

  lemma ElementsTake<T>(s: seq<T>, i: nat)
    requires i < |s|
    ensures Elements(s[..i + 1]) == Elements(s[..i]) + {s[i]}
  {
    assert s[..i + 1] == s[..i] + [s[i]];
    ElementsPush(s[..i], s[i]);
  }

  ghost function Servers(all: map<Key, Connection>): set<Key> { set k | k in all && all[k].server }

  ghost function Unverified(all: map<Key, Connection>): set<Key> {
    set k | k in all && all[k].server && !all[k].verified
  }

  ghost predicate Distinct(queue: seq<Key>) {
    forall i, j :: 0 <= i < j < |queue| ==> queue[i] != queue[j]
  }

  ghost predicate Live(queue: seq<Key>, all: map<Key, Connection>) {
    forall i :: 0 <= i < |queue| ==> queue[i] in all
  }

  /** No ID belongs to two connections. */
  ghost predicate Unique(all: map<Key, Connection>) {
    forall k, l :: k in all && l in all && k != l ==> all[k].Owned() !! all[l].Owned()
  }

  /** Every entry of the dictionary points to a live connection that owns the ID. */
  ghost predicate Sound(cids: map<Cid, Key>, all: map<Key, Connection>) {
    forall c :: c in cids && c != [] ==> Points(cids, all, c)
  }

  ghost predicate Points(cids: map<Cid, Key>, all: map<Key, Connection>, c: Cid)
    requires c in cids
  {
    cids[c] in all && c in all[cids[c]].Owned()
  }

  // ----- Cardinalities -----

  function One(b: bool): nat { if b then 1 else 0 }

  lemma ServersPlus(all: map<Key, Connection>, k: Key, c: Connection)
    requires k !in all
    ensures |Servers(all[k := c])| == |Servers(all)| + One(c.server)
  {
    if c.server {
      assert Servers(all[k := c]) == Servers(all) + {k};
    } else {
      assert Servers(all[k := c]) == Servers(all);
    }
  }

  lemma UnverifiedPlus(all: map<Key, Connection>, k: Key, c: Connection)
    requires k !in all
    ensures |Unverified(all[k := c])| == |Unverified(all)| + One(c.server && !c.verified)
  {
    if c.server && !c.verified {
      assert Unverified(all[k := c]) == Unverified(all) + {k};
    } else {
      assert Unverified(all[k := c]) == Unverified(all);
    }
  }

  lemma Replaced(all: map<Key, Connection>, k: Key, c: Connection)
    requires k in all
    ensures all == (all - {k})[k := all[k]] && all[k := c] == (all - {k})[k := c]
  {
  }

  /** What is left when all the IDs in `gone` are taken out. */
  ghost predicate Without(cids: map<Cid, Key>, cids0: map<Cid, Key>, gone: set<Cid>) {
    forall c :: (c in cids <==> c in cids0 && c !in gone) && (c in cids ==> cids[c] == cids0[c])
  }

  /** And when all the IDs in `added` are given to `key`. */
  ghost predicate With(cids: map<Cid, Key>, cids0: map<Cid, Key>, added: set<Cid>, key: Key) {
    forall c ::
      && (c in cids <==> c in cids0 || c in added)
      && (c in cids ==> cids[c] == if c in added then key else cids0[c])
  }

  /** `LinkedHashSet::replace`: adds at the back what is not there. */
  function Enqueue(queue: seq<Key>, key: Key): seq<Key> {
    if key in queue then queue else queue + [key]
  }

  /** Nothing queued moves or is lost, the key is there, and still no key is there twice. */
  lemma EnqueueKeeps(queue: seq<Key>, key: Key)
    ensures queue <= Enqueue(queue, key) && Elements(Enqueue(queue, key)) == Elements(queue) + {key}
    ensures Distinct(queue) ==> Distinct(Enqueue(queue, key))
  {
    if key in queue {
      assert key in Elements(queue);
    } else {
      ElementsPush(queue, key);
    }
  }

  /** The first occurrence of a key, taken out of the queue. */
  function Drop(queue: seq<Key>, key: Key): (r: seq<Key>) {
    if queue == [] then [] else if queue[0] == key then queue[1..] else [queue[0]] + Drop(queue[1..], key)
  }

  lemma {:induction false} DropKeeps(queue: seq<Key>, key: Key)
    requires Distinct(queue)
    ensures Distinct(Drop(queue, key))
    ensures Elements(Drop(queue, key)) == Elements(queue) - {key}
  {
    if queue != [] {
      var rest := queue[1..];
      assert queue == [queue[0]] + rest;
      Cons(queue[0], rest);
      if queue[0] != key {
        DropKeeps(rest, key);
        Cons(queue[0], Drop(rest, key));
      }
    }
  }

  lemma {:induction false} DropAt(queue: seq<Key>, key: Key, i: nat)
    requires i < |queue| && queue[i] == key && key !in queue[..i]
    ensures Drop(queue, key) == queue[..i] + queue[i + 1..]
  {
    if i > 0 {
      var rest := queue[1..];
      assert queue[0] == queue[..i][0] && rest[..i - 1] == queue[..i][1..];
      DropAt(rest, key, i - 1);
      assert [queue[0]] + rest[..i - 1] == queue[..i] && rest[i..] == queue[i + 1..];
    }
  }

  /** The others stay in order. */
  lemma DropKeepsOrder(queue: seq<Key>, key: Key)
    requires Distinct(queue)
    ensures forall i :: 0 <= i < |queue| && queue[i] == key ==> Drop(queue, key) == queue[..i] + queue[i + 1..]
  {
    forall i | 0 <= i < |queue| && queue[i] == key ensures Drop(queue, key) == queue[..i] + queue[i + 1..] {
      DropAt(queue, key, i);
    }
  }

  /** A queue is distinct exactly if its head is not in its distinct tail. */
  lemma Cons(x: Key, rest: seq<Key>)
    ensures Elements([x] + rest) == {x} + Elements(rest)
    ensures Distinct([x] + rest) <==> Distinct(rest) && x !in Elements(rest)
  {
    var s := [x] + rest;
    assert forall i :: 0 <= i < |rest| ==> s[i + 1] == rest[i];
    assert s[0] == x;
    forall y | y in {x} + Elements(rest) ensures y in Elements(s) {
      if y != x {
        var i :| 0 <= i < |rest| && rest[i] == y;
        assert s[i + 1] == y;
      }
    }
    if Distinct(s) {
      forall i | 0 <= i < |rest| ensures rest[i] != x {
        assert s[0] != s[i + 1];
      }
      forall i, j | 0 <= i < j < |rest| ensures rest[i] != rest[j] {
        assert s[i + 1] != s[j + 1];
      }
    }
  }

  /** Every ID in use leads to the connection, none that was retired does, and nothing
      else has changed. An ID that is both is taken out. */
  ghost predicate Updated(cids: map<Cid, Key>, cids0: map<Cid, Key>, c: Connection, key: Key) {
    forall x ::
      && (x in cids <==> x !in Elements(c.retired) && (x in cids0 || x in Elements(c.sources)))
      && (x in cids ==> cids[x] == if x in Elements(c.sources) then key else cids0[x])
  }

  // ----- What the operations keep -----

  /** The IDs of a connection are in no entry of another one. */
  lemma OwnEntries(cids: map<Cid, Key>, all: map<Key, Connection>, k: Key, c: Cid)
    requires Sound(cids, all) && Unique(all) && k in all && c in all[k].Owned() && c in cids
    ensures cids[c] == k
  {
    assert Points(cids, all, c);
  }

  lemma InsertSound(cids: map<Cid, Key>, all: map<Key, Connection>, k: Key, c: Connection)
    requires k !in all
    ensures Sound(cids, all) ==> Sound(cids, all[k := c])
  {
    if Sound(cids, all) {
      forall x | x in cids && x != [] ensures Points(cids, all[k := c], x) {
        assert Points(cids, all, x);
      }
    }
  }

  /** Entries for more IDs of a live connection. */
  lemma WithSound(cids: map<Cid, Key>, cids0: map<Cid, Key>, all: map<Key, Connection>, added: set<Cid>, k: Key)
    requires Sound(cids0, all) && k in all && added <= all[k].Ids() && With(cids, cids0, added, k)
    ensures Sound(cids, all)
  {
    forall x | x in cids && x != [] ensures Points(cids, all, x) {
      if x !in added {
        assert Points(cids0, all, x);
      }
    }
  }

  /** Taking out IDs lets their connection forget them. */
  lemma WithoutSound(cids: map<Cid, Key>, cids0: map<Cid, Key>, all: map<Key, Connection>, gone: set<Cid>, k: Key,
                     c: Connection)
    requires Sound(cids0, all) && k in all && Without(cids, cids0, gone) && all[k].Owned() <= c.Owned() + gone
    ensures Sound(cids, all[k := c])
  {
    forall x | x in cids && x != [] ensures Points(cids, all[k := c], x) {
      assert Points(cids0, all, x);
    }
  }

  /** Taking out all the IDs of a connection lets it be removed, and takes out exactly
      the entries that point to it. */
  lemma RemoveSound(cids: map<Cid, Key>, cids0: map<Cid, Key>, all: map<Key, Connection>, k: Key)
    requires Sound(cids0, all) && Unique(all) && k in all && Without(cids, cids0, all[k].Ids())
    ensures Sound(cids, all - {k})
    ensures forall x :: x in cids0 && x != [] ==> (x in cids <==> cids0[x] != k)
  {
    forall x | x in cids0 && x != [] ensures x in cids <==> cids0[x] != k {
      assert Points(cids0, all, x);
      if x in all[k].Owned() {
        OwnEntries(cids0, all, k, x);
      }
    }
    forall x | x in cids && x != [] ensures Points(cids, all - {k}, x) {
      assert Points(cids0, all, x);
    }
  }

  lemma RemoveRouted(cids: map<Cid, Key>, cids0: map<Cid, Key>, all: map<Key, Connection>, k: Key)
    requires k in all && Without(cids, cids0, all[k].Ids())
    ensures Unique(all) && Sound(cids0, all) ==>
              && Unique(all - {k}) && Sound(cids, all - {k})
              && forall c :: c in cids0 && c != [] ==> (c in cids <==> cids0[c] != k)
  {
    if Unique(all) && Sound(cids0, all) {
      UniqueShrinks(all, k, all[k]);
      RemoveSound(cids, cids0, all, k);
    }
  }

  lemma UniqueShrinks(all: map<Key, Connection>, k: Key, c: Connection)
    requires Unique(all) && k in all && c.Owned() <= all[k].Owned()
    ensures Unique(all[k := c]) && Unique(all - {k})
  {
  }

  lemma CountsKept(all: map<Key, Connection>, k: Key, c: Connection)
    requires k in all
    ensures |Servers(all[k := c])| + One(all[k].server) == |Servers(all)| + One(c.server)
    ensures |Unverified(all[k := c])| + One(all[k].server && !all[k].verified)
         == |Unverified(all)| + One(c.server && !c.verified)
  {
    Replaced(all, k, c);
    var rest := all - {k};
    ServersPlus(rest, k, all[k]);
    ServersPlus(rest, k, c);
    UnverifiedPlus(rest, k, all[k]);
    UnverifiedPlus(rest, k, c);
  }

  lemma RemoveCounts(all: map<Key, Connection>, k: Key)
    requires k in all
    ensures |Servers(all - {k})| + One(all[k].server) == |Servers(all)|
    ensures |Unverified(all - {k})| + One(all[k].server && !all[k].verified) == |Unverified(all)|
  {
    Replaced(all, k, all[k]);
    ServersPlus(all - {k}, k, all[k]);
    UnverifiedPlus(all - {k}, k, all[k]);
  }

  lemma {:induction false} DropAbsent(queue: seq<Key>, key: Key)
    requires key !in queue
    ensures Drop(queue, key) == queue
  {
    if queue != [] {
      DropAbsent(queue[1..], key);
    }
  }

  lemma RemoveQueue(queue: seq<Key>, all: map<Key, Connection>, k: Key)
    requires Distinct(queue) && Live(queue, all)
    ensures Distinct(Drop(queue, k)) && Live(Drop(queue, k), all - {k})
  {
    DropKeeps(queue, k);
    var r := Drop(queue, k);
    forall i | 0 <= i < |r| ensures r[i] in all - {k} {
      assert r[i] in Elements(r);
    }
  }

  // ----- Routing by address -----

  /** Every address entry points to a live connection. */
  ghost predicate AddrLive(addrs: map<Addr, Key>, all: map<Key, Connection>) {
    forall a :: a in addrs ==> addrs[a] in all
  }

  /** No connection has two address entries. */
  ghost predicate OneAddr(addrs: map<Addr, Key>) {
    forall a, b :: a in addrs && b in addrs && addrs[a] == addrs[b] ==> a == b
  }

  ghost predicate AddrSound(addrs: map<Addr, Key>, all: map<Key, Connection>) {
    AddrLive(addrs, all) && OneAddr(addrs)
  }

  function WithoutAddr(addrs: map<Addr, Key>, gone: Option<Addr>): map<Addr, Key> {
    if gone.Some? then addrs - {gone.value} else addrs
  }

  /** A connection entered under `peer` can be removed without leaving a dangling entry
      exactly if `peer` is the address taken out; one that has no entry, always. */
  lemma RemoveAddrIff(addrs: map<Addr, Key>, all: map<Key, Connection>, k: Key, gone: Option<Addr>)
    requires AddrSound(addrs, all)
    ensures forall peer :: peer in addrs && addrs[peer] == k ==>
              (AddrLive(WithoutAddr(addrs, gone), all - {k}) <==> gone == Some(peer))
    ensures (forall a :: a in addrs ==> addrs[a] != k) ==> AddrLive(WithoutAddr(addrs, gone), all - {k})
    ensures OneAddr(WithoutAddr(addrs, gone))
  {
    var rest := WithoutAddr(addrs, gone);
    forall peer | peer in addrs && addrs[peer] == k
      ensures AddrLive(rest, all - {k}) <==> gone == Some(peer)
    {
      if gone != Some(peer) {
        assert peer in rest && rest[peer] == k;
      }
    }
  }

  /** Entering a new connection by address never leaves an entry dangling. */
  lemma EnterAddr(addrs: map<Addr, Key>, all: map<Key, Connection>, k: Key, c: Connection, peer: Addr)
    requires k !in all
    ensures AddrSound(addrs, all) ==> AddrSound(addrs, all[k := c]) && AddrSound(addrs[peer := k], all[k := c])
  {
  }

  lemma ForgetAddr(addrs: map<Addr, Key>, all: map<Key, Connection>, k: Key, gone: Option<Addr>)
    ensures AddrSound(addrs, all) ==>
              forall peer :: peer in addrs && addrs[peer] == k ==>
                (AddrSound(WithoutAddr(addrs, gone), all - {k}) <==> gone == Some(peer))
    ensures AddrSound(addrs, all) && (forall a :: a in addrs ==> addrs[a] != k) ==>
              AddrSound(WithoutAddr(addrs, gone), all - {k})
  {
    if AddrSound(addrs, all) {
      RemoveAddrIff(addrs, all, k, gone);
    }
  }

  class Connections {
    var all: map<Key, Connection>
    var cids: map<Cid, Key>
    var addrs: map<Addr, Key>
    var active: seq<Key>
    var serverCount: nat
    var unverifiedCount: nat

    /** The counters are cardinalities, and the queue is live and without duplicates. */
    ghost predicate Valid()
      reads this
    {
      && serverCount == |Servers(all)| && unverifiedCount == |Unverified(all)|
      && Distinct(active) && Live(active, all)
    }

    /** Every ID leads to a live connection that owns it, and to no other. */
    ghost predicate Routed()
      reads this
    {
      Unique(all) && Sound(cids, all)
    }

    constructor ()
      ensures Valid() && Routed() && AddrSound(addrs, all)
      ensures all == map[] && cids == map[] && addrs == map[] && active == []
    {
      all, cids, addrs, active := map[], map[], map[], [];
      serverCount, unverifiedCount := 0, 0;
    }

    /** The key is one the slot map has not handed out. */
    method Insert(connection: Connection, source: Cid, key: Key, peer: Addr)
      requires Valid() && key !in all && source in Elements(connection.sources)
      modifies this
      ensures Valid() && all == old(all)[key := connection]
      ensures active == old(active) + [key]
      ensures cids == if source == [] then old(cids) else old(cids)[source := key]
      ensures addrs == if source == [] then old(addrs)[connection.PeerAddr(peer) := key] else old(addrs)
      ensures old(Routed()) && Unique(all) ==> Routed()
      ensures AddrSound(old(addrs), old(all)) ==> AddrSound(addrs, all)
    {
      EnterAddr(addrs, all, key, connection, connection.PeerAddr(peer));
      InsertSound(cids, all, key, connection);
      CountIn(connection, key);
      all := all[key := connection];
      active := Enqueue(active, key);
      EnterRoute(source, key, connection.PeerAddr(peer));
    }

    /** The dictionary entry of a new connection: by ID, or by address if that is empty. */
    method EnterRoute(source: Cid, key: Key, addr: Addr)
      requires key in all && source in Elements(all[key].sources)
      modifies this`cids, this`addrs
      ensures cids == if source == [] then old(cids) else old(cids)[source := key]
      ensures addrs == if source == [] then old(addrs)[addr := key] else old(addrs)
      ensures Sound(old(cids), all) ==> Sound(cids, all)
    {
      if source == [] {
        addrs := addrs[addr := key];
      } else {
        if Sound(cids, all) {
          WithSound(cids[source := key], cids, all, {source}, key);
        }
        cids := cids[source := key];
      }
    }

    /** The counter updates of `insert`. */
    method CountIn(connection: Connection, ghost key: Key)
      requires key !in all && serverCount == |Servers(all)| && unverifiedCount == |Unverified(all)|
      modifies this`serverCount, this`unverifiedCount
      ensures serverCount == |Servers(all[key := connection])|
      ensures unverifiedCount == |Unverified(all[key := connection])|
    {
      ServersPlus(all, key, connection);
      UnverifiedPlus(all, key, connection);
      if connection.server {
        serverCount := serverCount + 1;
        if !connection.verified {
          unverifiedCount := unverifiedCount + 1;
        }
      }
    }

    method MarkActive(key: Key)
      requires Valid()
      modifies this`active
      ensures Valid() && (old(Routed()) ==> Routed())
      ensures active == if key in all && key !in old(active) then old(active) + [key] else old(active)
    {
      if key in all {
        active := Enqueue(active, key);
      }
    }

    /** The oldest active connection. The loop drops dead keys in front of it, of which
        a valid registry has none. */
    method PeekActive() returns (r: Option<Key>)
      modifies this`active
      ensures active == Skip(old(active), all)
      ensures r == (if active == [] then None else Some(active[0])) && (r.Some? ==> r.value in all)
      ensures old(Valid()) ==> Valid() && active == old(active)
    {
      while active != []
        invariant Skip(active, all) == Skip(old(active), all)
        decreases |active|
      {
        var key := active[0];
        if key in all {
          return Some(key);
        }
        NextActive();
      }
      return None;
    }

    method NextActive()
      modifies this`active
      ensures active == if old(active) == [] then [] else old(active)[1..]
      ensures old(Valid()) ==> Valid()
    {
      if active != [] {
        active := active[1..];
      }
    }

    method MarkVerified(key: Key)
      requires Valid()
      modifies this`all, this`unverifiedCount
      ensures Valid() && (old(Routed()) ==> Routed())
      ensures all == if key in old(all) && old(all)[key].server
                     then old(all)[key := old(all)[key].(verified := true)] else old(all)
    {
      if key !in all || !all[key].server {
        return;
      }
      if !all[key].verified {
        var c := all[key].(verified := true);
        CountsKept(all, key, c);
        SameIds(cids, all, key, c);
        all := all[key := c];
        unverifiedCount := unverifiedCount - 1;
      }
    }

    /** The quiche connection issues and retires IDs, and changes its paths. */
    method Evolve(key: Key, sources: seq<Cid>, retired: seq<Cid>, paths: seq<NetPath>)
      requires Valid() && key in all
      modifies this`all
      ensures Valid()
      ensures all == old(all)[key := old(all)[key].(sources := sources, retired := retired, paths := paths)]
      ensures old(Routed()) && Unique(all) && old(all)[key].Owned() <= all[key].Owned() ==> Routed()
      ensures AddrSound(addrs, old(all)) ==> AddrSound(addrs, all)
    {
      var c := all[key].(sources := sources, retired := retired, paths := paths);
      CountsKept(all, key, c);
      if Sound(cids, all) && all[key].Owned() <= c.Owned() {
        WithoutSound(cids, cids, all, {}, key, c);
      }
      all := all[key := c];
    }

    /** Enters the IDs of a connection, and takes out those in its retirement queue. */
    method UpdateScidsDict(key: Key)
      requires Valid()
      modifies this`all, this`cids
      ensures Valid() && (old(Routed()) ==> Routed())
      ensures all == if key in old(all) then old(all)[key := old(all)[key].(retired := [])] else old(all)
      ensures key in all ==> Updated(cids, old(cids), old(all)[key], key)
    {
      if key !in all {
        return;
      }
      EnterAll(key);
      RetireAll(key);
    }

    method EnterAll(key: Key)
      requires Valid() && key in all
      modifies this`cids
      ensures Valid() && (old(Routed()) ==> Routed()) && With(cids, old(cids), Elements(all[key].sources), key)
    {
      var sources := all[key].sources;
      for i := 0 to |sources|
        invariant With(cids, old(cids), Elements(sources[..i]), key)
      {
        ElementsTake(sources, i);
        cids := cids[sources[i] := key];
      }
      assert sources[..|sources|] == sources;
      if old(Routed()) {
        WithSound(cids, old(cids), all, Elements(sources), key);
      }
    }

    /** The loop over `retired_scid_next`. */
    method RetireAll(key: Key)
      requires Valid() && key in all
      modifies this`all, this`cids
      ensures Valid() && (old(Routed()) ==> Routed())
      ensures all == old(all)[key := old(all)[key].(retired := [])]
      ensures Without(cids, old(cids), Elements(old(all)[key].retired))
    {
      ghost var c, i := all[key], 0;
      while all[key].retired != []
        invariant 0 <= i <= |c.retired| && all == old(all)[key := c.(retired := c.retired[i..])]
        invariant Without(cids, old(cids), Elements(c.retired[..i]))
        decreases |c.retired| - i
      {
        var cid := all[key].retired[0];
        ElementsTake(c.retired, i);
        all := all[key := all[key].(retired := all[key].retired[1..])];
        cids := cids - {cid};
        i := i + 1;
      }
      assert c.retired[..i] == c.retired;
      CountsKept(old(all), key, c.(retired := []));
      if old(Routed()) {
        UniqueShrinks(old(all), key, c.(retired := []));
        WithoutSound(cids, old(cids), old(all), Elements(c.retired), key, c.(retired := []));
      }
    }

    /** Forgets a connection, and with it exactly the entries that point to it; with only
        zero-length IDs, also the address entry of its first validated path, which leaves
        none dangling exactly if it was entered under that address. */
    method Remove(key: Key) returns (r: Option<Connection>)
      requires Valid()
      modifies this
      ensures Valid() && all == old(all) - {key} && active == Drop(old(active), key)
      ensures r == if key in old(all) then Some(old(all)[key].(retired := [])) else None
      ensures Without(cids, old(cids), if key in old(all) then old(all)[key].Ids() else {})
      ensures forall x :: key in old(all) && (x in old(all)[key].sources || x in old(all)[key].retired) ==> x !in cids
      ensures addrs == WithoutAddr(old(addrs), if key in old(all) then old(all)[key].ForgottenAddr() else None)
      ensures key in old(all) && AddrSound(old(addrs), old(all)) ==>
                forall peer :: peer in old(addrs) && old(addrs)[peer] == key ==>
                  (AddrSound(addrs, all) <==> old(all)[key].ForgottenAddr() == Some(peer))
      ensures AddrSound(old(addrs), old(all)) && (forall a :: a in old(addrs) ==> old(addrs)[a] != key) ==>
                AddrSound(addrs, all)
      ensures old(Routed()) ==>
                && Routed()
                && forall c :: c in old(cids) && c != [] ==> (c in cids <==> old(cids)[c] != key)
    {
      if key !in all {
        DropAbsent(active, key);
        return None;
      }
      var connection := all[key];
      CountOut(key);
      RemoveQueue(active, all, key);
      all := all - {key};
      active := Drop(active, key);
      var scidsEmpty := ForgetIds(connection);
      if scidsEmpty {
        ForgetRoute(FirstValidated(connection.paths));
      }
      ForgetAddr(old(addrs), old(all), key, connection.ForgottenAddr());
      RemoveRouted(cids, old(cids), old(all), key);
      return Some(connection.(retired := []));
    }

    /** Takes out the entry of the validated path, if there is one. */
    method ForgetRoute(validated: Option<Addr>)
      modifies this`addrs
      ensures addrs == WithoutAddr(old(addrs), validated)
    {
      if validated.Some? {
        addrs := addrs - {validated.value};
      }
    }

    /** The counter updates of `remove`. */
    method CountOut(key: Key)
      requires key in all && serverCount == |Servers(all)| && unverifiedCount == |Unverified(all)|
      modifies this`serverCount, this`unverifiedCount
      ensures serverCount == |Servers(all - {key})| && unverifiedCount == |Unverified(all - {key})|
    {
      RemoveCounts(all, key);
      if all[key].server {
        serverCount := serverCount - 1;
        if !all[key].verified {
          unverifiedCount := unverifiedCount - 1;
        }
      }
    }

    /** The loops of `remove` over the IDs in use and the retirement queue. */
    method ForgetIds(connection: Connection) returns (scidsEmpty: bool)
      modifies this`cids
      ensures Without(cids, old(cids), connection.Ids())
      ensures scidsEmpty <==> connection.Owned() == {}
    {
      scidsEmpty := true;
      var sources := connection.sources;
      for i := 0 to |sources|
        invariant Without(cids, old(cids), Elements(sources[..i]))
        invariant scidsEmpty <==> Elements(sources[..i]) <= {[]}
      {
        ElementsTake(sources, i);
        if sources[i] != [] {
          scidsEmpty := false;
        }
        cids := cids - {sources[i]};
      }
      assert sources[..|sources|] == sources;
      var queue, i := connection.retired, 0;
      while queue != []
        invariant 0 <= i <= |connection.retired| && queue == connection.retired[i..]
        invariant Without(cids, old(cids), Elements(sources) + Elements(connection.retired[..i]))
        invariant scidsEmpty <==> Elements(sources) + Elements(connection.retired[..i]) <= {[]}
        decreases |queue|
      {
        ElementsTake(connection.retired, i);
        if queue[0] != [] {
          scidsEmpty := false;
        }
        cids := cids - {queue[0]};
        queue, i := queue[1..], i + 1;
      }
      assert connection.retired[..i] == connection.retired;
    }

    /** `find_connection_key`: by ID, or by address if that is empty. What is found by ID
        is live and owns it; what is found by address is live if the entry is. */
    method FindConnectionKey(cid: Cid, peer: Addr) returns (r: Option<Key>)
      ensures cid != [] ==> r == if cid in cids then Some(cids[cid]) else None
      ensures cid != [] && r.Some? && Routed() ==> r.value in all && cid in all[r.value].Owned()
      ensures cid == [] ==> r == if peer in addrs then Some(addrs[peer]) else None
      ensures cid == [] && r.Some? && AddrLive(addrs, all) ==> r.value in all
    {
      if cid != [] {
        if cid !in cids {
          return None;
        }
        assert Routed() ==> Points(cids, all, cid);
        return Some(cids[cid]);
      }
      return if peer in addrs then Some(addrs[peer]) else None;
    }
  }

  lemma SameIds(cids: map<Cid, Key>, all: map<Key, Connection>, k: Key, c: Connection)
    requires k in all && c.Owned() == all[k].Owned()
    ensures Unique(all) && Sound(cids, all) ==> Unique(all[k := c]) && Sound(cids, all[k := c])
  {
    if Unique(all) && Sound(cids, all) {
      UniqueShrinks(all, k, c);
      WithoutSound(cids, cids, all, {}, k, c);
    }
  }

  /** The queue from its first live key on. */
  function Skip(queue: seq<Key>, all: map<Key, Connection>): (r: seq<Key>)
    ensures |r| <= |queue| && r == queue[|queue| - |r|..] && (r != [] ==> r[0] in all)
    ensures forall i :: 0 <= i < |queue| - |r| ==> queue[i] !in all
  {
    if queue == [] || queue[0] in all then queue else Skip(queue[1..], all)
  }

  /** The dangling entry: a connection with a zero-length ID that is removed before the
      path it was entered under is validated, or with another path validated first. */
  method DanglingAfterRemove(connection: Connection, key: Key, peer: Addr) returns (c: Connections)
    requires connection.sources == [[]] && connection.retired == []
    requires FirstValidated(connection.paths) != Some(connection.PeerAddr(peer))
    ensures c.Valid() && c.all == map[] && connection.PeerAddr(peer) in c.addrs && !AddrLive(c.addrs, c.all)
  {
    c := new Connections();
    assert connection.sources[0] in Elements(connection.sources);
    c.Insert(connection, [], key, peer);
    var removed := c.Remove(key);
    assert c.addrs[connection.PeerAddr(peer)] == key;
  }
}
