/**
 * The proxy's `BungeePlayerController`: the last snapshot of every player, per backend
 * server, and when it arrived. The two tables are nested maps, server name to player to
 * value, that are updated in place; the functions at the top of the module say what each
 * update does to a table, and the class applies them.
 */
module Store {
  import opened Wrappers
  import Uuids
  import opened Text
  import opened Json

  type Uuid = Uuids.Uuid

  /** Server name, then player, then the stored value. */
  type Table<T> = map<string, map<Uuid, T>>

  /** `map.get(server)` then `get(player)`, null at either step giving `None`. */
  function Get<T>(t: Table<T>, s: string, u: Uuid): Option<T> {
    if s in t && u in t[s] then Some(t[s][u]) else None
  }

  /** Two tables with the same servers and, per server, the same players. */
  predicate Aligned<A, B>(a: Table<A>, b: Table<B>) {
    a.Keys == b.Keys && forall s :: s in a ==> a[s].Keys == b[s].Keys
  }

  // ---------------------------------------------------------------- table updates

  /** `computeIfAbsent(server, new map)` then `put(player, v)`. */
  function Put<T>(t: Table<T>, s: string, u: Uuid, v: T): (r: Table<T>)
    ensures r.Keys == t.Keys + {s}
  {
    t[s := (if s in t then t[s] else map[])[u := v]]
  }

  /** Removes one player from one server; an absent server or player is left alone. */
  function Delete<T>(t: Table<T>, s: string, u: Uuid): (r: Table<T>)
    ensures r.Keys == t.Keys
  {
    if s in t then t[s := t[s] - {u}] else t
  }

  /** One server's bucket after player `u` is evicted from every server but `keep`. */
  function EvictBucket<T>(b: map<Uuid, T>, u: Uuid, s: string, keep: string): map<Uuid, T> {
    if s == keep then b else b - {u}
  }

  /** Removes player `u` from every server except `keep`, whose bucket is left as it is. */
  function Evict<T>(t: Table<T>, u: Uuid, keep: string): (r: Table<T>)
    ensures r.Keys == t.Keys
  {
    map s | s in t :: EvictBucket(t[s], u, s, keep)
  }

  /** The players of one server whose timestamp is more than `maxAge` before `now`. */
  function StaleIn(times: map<Uuid, int>, now: int, maxAge: int): set<Uuid> {
    set u | u in times && now - times[u] > maxAge
  }

  /** The entry (s, u) has a timestamp more than `maxAge` before `now`. */
  predicate IsStale(times: Table<int>, s: string, u: Uuid, now: int, maxAge: int) {
    Get(times, s, u).Some? && now - Get(times, s, u).value > maxAge
  }

  /** Keeps the entries whose timestamp is at most `maxAge` before `now`. */
  function Sweep<T>(t: Table<T>, times: Table<int>, now: int, maxAge: int): (r: Table<T>)
    requires Aligned(t, times)
    ensures r.Keys == t.Keys
  {
    map s | s in t :: t[s] - StaleIn(times[s], now, maxAge)
  }

  /** Stores each (player, value) pair under server `s`, in order. */
  function PutAll<T>(t: Table<T>, s: string, pairs: seq<(Uuid, T)>): Table<T>
    decreases |pairs|
  {
    if |pairs| == 0 then t else PutAll(Put(t, s, pairs[0].0, pairs[0].1), s, pairs[1..])
  }

  /** The value of the last pair for `u`, if any. */
  function LastFor<T>(pairs: seq<(Uuid, T)>, u: Uuid): Option<T>
    decreases |pairs|
  {
    if |pairs| == 0 then None
    else if pairs[|pairs| - 1].0 == u then Some(pairs[|pairs| - 1].1)
    else LastFor(pairs[..|pairs| - 1], u)
  }

  /** The players of `pairs`, each paired with the time `now`. */
  function Stamp<T>(pairs: seq<(Uuid, T)>, now: int): (r: seq<(Uuid, int)>)
    ensures |r| == |pairs|
    ensures forall k :: 0 <= k < |r| ==> r[k] == (pairs[k].0, now)
  {
    seq(|pairs|, k requires 0 <= k < |pairs| => (pairs[k].0, now))
  }

  // ---------------------------------------------------------------- properties of the updates

  /** A store sets exactly one entry, creating the server's bucket when needed. */
  lemma PutGet<T>(t: Table<T>, s: string, u: Uuid, v: T)
    ensures Get(Put(t, s, u, v), s, u) == Some(v)
    ensures forall s', u' :: (s' != s || u' != u) ==> Get(Put(t, s, u, v), s', u') == Get(t, s', u')
  {
  }

  /** A removal clears exactly one entry and keeps every server, even an emptied one. */
  lemma DeleteGet<T>(t: Table<T>, s: string, u: Uuid)
    ensures Get(Delete(t, s, u), s, u) == None
    ensures forall s', u' :: (s' != s || u' != u) ==> Get(Delete(t, s, u), s', u') == Get(t, s', u')
  {
  }

  /** After an eviction the player is at most in `keep`, and nothing else changes. */
  lemma EvictGet<T>(t: Table<T>, u: Uuid, keep: string)
    ensures forall s :: Get(Evict(t, u, keep), s, u).Some? ==> s == keep
    ensures forall v :: Get(Evict(t, u, keep), keep, v) == Get(t, keep, v)
    ensures forall s, v :: v != u ==> Get(Evict(t, u, keep), s, v) == Get(t, s, v)
  {
  }

  /** A sweep drops exactly the stale entries. */
  lemma SweepGet<T>(t: Table<T>, times: Table<int>, now: int, maxAge: int)
    requires Aligned(t, times)
    ensures forall s, u :: Get(Sweep(t, times, now, maxAge), s, u) ==
                             (if IsStale(times, s, u, now, maxAge) then None else Get(t, s, u))
  {
  }

  lemma PutAligned<A, B>(a: Table<A>, b: Table<B>, s: string, u: Uuid, x: A, y: B)
    requires Aligned(a, b)
    ensures Aligned(Put(a, s, u, x), Put(b, s, u, y))
  {
  }

  lemma DeleteAligned<A, B>(a: Table<A>, b: Table<B>, s: string, u: Uuid)
    requires Aligned(a, b)
    ensures Aligned(Delete(a, s, u), Delete(b, s, u))
  {
  }

  lemma EvictAligned<A, B>(a: Table<A>, b: Table<B>, u: Uuid, keep: string)
    requires Aligned(a, b)
    ensures Aligned(Evict(a, u, keep), Evict(b, u, keep))
  {
  }

  lemma SweepAligned<A, B>(a: Table<A>, b: Table<B>, times: Table<int>, now: int, maxAge: int)
    requires Aligned(a, times) && Aligned(b, times)
    ensures Aligned(Sweep(a, times, now, maxAge), Sweep(b, times, now, maxAge))
  {
  }

  /** After a batch of stores, a player holds the value of its last pair, or what it had. */
  lemma {:induction false} PutAllGet<T>(t: Table<T>, s: string, pairs: seq<(Uuid, T)>, s': string, u: Uuid)
    ensures Get(PutAll(t, s, pairs), s', u) ==
      if s' == s && LastFor(pairs, u).Some? then LastFor(pairs, u) else Get(t, s', u)
    decreases |pairs|
  {
    if |pairs| > 0 {
      var t1 := Put(t, s, pairs[0].0, pairs[0].1);
      PutGet(t, s, pairs[0].0, pairs[0].1);
      PutAllGet(t1, s, pairs[1..], s', u);
      LastForCons(pairs, u);
    }
  }

  /** `LastFor` read from the front: the tail's answer, or else the head's. */
  lemma {:induction false} LastForCons<T>(pairs: seq<(Uuid, T)>, u: Uuid)
    requires |pairs| > 0
    ensures LastFor(pairs, u) ==
      if LastFor(pairs[1..], u).Some? then LastFor(pairs[1..], u)
      else if pairs[0].0 == u then Some(pairs[0].1) else None
    decreases |pairs|
  {
    if |pairs| > 1 {
      var n := |pairs|;
      assert pairs[1..][..n - 2] == pairs[..n - 1][1..];
      LastForCons(pairs[..n - 1], u);
    }
  }

  /** A batch that starts with `p` is `p` stored first, then the rest. */
  lemma PutAllCons<T>(t: Table<T>, s: string, p: (Uuid, T), rest: seq<(Uuid, T)>)
    ensures PutAll(t, s, [p] + rest) == PutAll(Put(t, s, p.0, p.1), s, rest)
  {
    assert ([p] + rest)[1..] == rest;
  }

  /** A batch in two parts is the first part stored, then the second. */
  lemma {:induction false} PutAllAppend<T>(t: Table<T>, s: string, a: seq<(Uuid, T)>, b: seq<(Uuid, T)>)
    ensures PutAll(t, s, a + b) == PutAll(PutAll(t, s, a), s, b)
    decreases |a|
  {
    if |a| > 0 {
      assert (a + b)[1..] == a[1..] + b;
      PutAllAppend(Put(t, s, a[0].0, a[0].1), s, a[1..], b);
    } else {
      assert a + b == b;
    }
  }

  lemma StampAppend<T>(a: seq<(Uuid, T)>, b: seq<(Uuid, T)>, now: int)
    ensures Stamp(a + b, now) == Stamp(a, now) + Stamp(b, now)
  {
  }

  /** A batch of stores into two aligned tables, under the same players, keeps them aligned. */
  lemma {:induction false} PutAllAligned<T>(a: Table<T>, b: Table<int>, s: string, pairs: seq<(Uuid, T)>, now: int)
    requires Aligned(a, b)
    ensures Aligned(PutAll(a, s, pairs), PutAll(b, s, Stamp(pairs, now)))
    decreases |pairs|
  {
    if |pairs| > 0 {
      PutAligned(a, b, s, pairs[0].0, pairs[0].1, now);
      assert Stamp(pairs, now)[1..] == Stamp(pairs[1..], now);
      PutAllAligned(Put(a, s, pairs[0].0, pairs[0].1), Put(b, s, pairs[0].0, now), s, pairs[1..], now);
    }
  }

  // ---------------------------------------------------------------- reading snapshots

  /**
   * The stores `updatePlayersData` makes for a payload: a payload with a `uuid` member is
   * one player, stored whole under that uuid (nothing when the uuid is malformed);
   * otherwise each element of a `players` array. An unparsable payload stores nothing.
   */
  function Updates(payload: string, parsed: Option<JsonObject>): seq<(Uuid, string)> {
    match parsed
    case None => []
    case Some(obj) =>
      if obj.uuid.Has() then
        match obj.uuid
        case Scalar(text) =>
          (match Uuids.FromString(text)
           case Some(u) => [(u, payload)]
           case None => [])
        case _ => []
      else if obj.players.Array? then ElementUpdates(obj.players.elements)
      else []
  }

  /**
   * Whether reading this element throws past the per-element handler, ending the
   * `forEach`: it is not an object, or it has a name and a uuid that is not a scalar.
   */
  predicate Stops(e: Element) {
    e.NotObject? || (e.obj.name.Has() && e.obj.uuid.Structured?)
  }

  /** The store one element makes: only an object with a name and a well-formed uuid. */
  function ElementUpdate(e: Element): (r: seq<(Uuid, string)>)
    ensures |r| <= 1
  {
    if e.AnObject? && e.obj.name.Has() && e.obj.uuid.Scalar? then
      match Uuids.FromString(e.obj.uuid.text)
      case Some(u) => [(u, e.obj.text)]
      case None => []
    else []
  }

  /** The stores of the elements before the first one that stops the iteration. */
  function ElementUpdates(es: seq<Element>): seq<(Uuid, string)>
    decreases |es|
  {
    if |es| == 0 || Stops(es[0]) then [] else ElementUpdate(es[0]) + ElementUpdates(es[1..])
  }

  /** Element `e` is an object with a name whose uuid and text are those of `p`. */
  predicate Carries(e: Element, p: (Uuid, string)) {
    e.AnObject? && e.obj.name.Has() && e.obj.uuid.Scalar?
    && Uuids.FromString(e.obj.uuid.text) == Some(p.0) && p.1 == e.obj.text
  }

  predicate FromElement(es: seq<Element>, p: (Uuid, string)) {
    exists k :: 0 <= k < |es| && Carries(es[k], p)
  }

  /** Every stored pair comes from an element with a name and that uuid, in its own text. */
  lemma {:induction false} ElementUpdatesSound(es: seq<Element>)
    ensures forall p :: p in ElementUpdates(es) ==> FromElement(es, p)
    decreases |es|
  {
    if |es| > 0 && !Stops(es[0]) {
      ElementUpdatesSound(es[1..]);
      forall p | p in ElementUpdates(es)
        ensures FromElement(es, p)
      {
        if p in ElementUpdate(es[0]) {
          assert Carries(es[0], p);
        } else {
          assert p in ElementUpdates(es[1..]);
          var k :| 0 <= k < |es[1..]| && Carries(es[1..][k], p);
          assert es[k + 1] == es[1..][k];
        }
      }
    }
  }

  /** Elements before the first stopping one are all processed: none is skipped silently. */
  lemma {:induction false} ElementUpdatesComplete(es: seq<Element>, k: nat)
    requires k < |es|
    requires forall j :: 0 <= j <= k ==> !Stops(es[j])
    requires ElementUpdate(es[k]) != []
    ensures ElementUpdate(es[k])[0] in ElementUpdates(es)
    decreases k
  {
    if k > 0 {
      ElementUpdatesComplete(es[1..], k - 1);
    }
  }

  /** The name `getAsString` reads from a stored snapshot, if parsing and reading succeed. */
  function NameOf(parse: Parser, json: string): Option<string> {
    match parse(json)
    case Some(obj) => if obj.name.Scalar? then Some(obj.name.text) else None
    case None => None
  }

  /** The names of the snapshots in `bucket`, visited in the order `order`. */
  function NamesIn(bucket: map<Uuid, string>, order: seq<Uuid>, parse: Parser): (r: seq<string>)
    requires forall k :: 0 <= k < |order| ==> order[k] in bucket
    ensures |r| <= |order|
    ensures forall n :: n in r <==> exists k :: 0 <= k < |order| && NameOf(parse, bucket[order[k]]) == Some(n)
    decreases |order|
  {
    if |order| == 0 then []
    else
      var rest := NamesIn(bucket, order[1..], parse);
      assert forall n :: (exists k :: 0 <= k < |order[1..]| && NameOf(parse, bucket[order[1..][k]]) == Some(n)) <==>
        (exists k :: 1 <= k < |order| && NameOf(parse, bucket[order[k]]) == Some(n)) by {
        forall k | 1 <= k < |order| ensures order[1..][k - 1] == order[k] { }
      }
      match NameOf(parse, bucket[order[0]])
      case Some(n) => [n] + rest
      case None => rest
  }

  /** A `values()` order: every player of the bucket exactly once. */
  predicate IsOrderOf<T>(order: seq<Uuid>, bucket: map<Uuid, T>) {
    && (forall k :: 0 <= k < |order| ==> order[k] in bucket)
    && (forall u :: u in bucket ==> u in order)
    && (forall i, j :: 0 <= i < j < |order| ==> order[i] != order[j])
  }

  /** What a detail query finds. */
  datatype Detail = ServerNotFound | PlayerNotFound | Found(json: string)

  const ServerNotFoundJson: string := "{\"error\":\"Server not found\"}"
  const PlayerNotFoundJson: string := "{\"error\":\"Player not found\"}"

  /** The response text for each outcome: the stored snapshot itself when found. */
  function DetailBody(d: Detail): string {
    match d
    case ServerNotFound => ServerNotFoundJson
    case PlayerNotFound => PlayerNotFoundJson
    case Found(json) => json
  }

  /** Whether a snapshot carries a name equal to `name` ignoring case. */
  predicate NameMatches(parse: Parser, json: string, name: string) {
    NameOf(parse, json).Some? && EqualsIgnoreCase(NameOf(parse, json).value, name)
  }

  /** Position `k` of `order` holds the first snapshot whose name matches. */
  predicate FirstMatchAt(bucket: map<Uuid, string>, order: seq<Uuid>, name: string, parse: Parser, k: int)
    requires forall i :: 0 <= i < |order| ==> order[i] in bucket
  {
    && 0 <= k < |order|
    && NameMatches(parse, bucket[order[k]], name)
    && forall j :: 0 <= j < k ==> !NameMatches(parse, bucket[order[j]], name)
  }

  /** The first snapshot in `order` whose name matches. */
  function FindByName(bucket: map<Uuid, string>, order: seq<Uuid>, name: string, parse: Parser): (r: Detail)
    requires forall k :: 0 <= k < |order| ==> order[k] in bucket
    ensures r.ServerNotFound? == false
    ensures r.PlayerNotFound? <==> forall k :: 0 <= k < |order| ==> !NameMatches(parse, bucket[order[k]], name)
    ensures r.Found? ==> exists k :: FirstMatchAt(bucket, order, name, parse, k) && bucket[order[k]] == r.json
    decreases |order|
  {
    if |order| == 0 then PlayerNotFound
    else if NameMatches(parse, bucket[order[0]], name) then Found(bucket[order[0]])
    else
      var r := FindByName(bucket, order[1..], name, parse);
      assert r.PlayerNotFound? ==> forall k :: 0 <= k < |order| ==> !NameMatches(parse, bucket[order[k]], name) by {
        if r.PlayerNotFound? {
          forall k | 1 <= k < |order| ensures !NameMatches(parse, bucket[order[k]], name) {
            assert order[1..][k - 1] == order[k];
          }
        }
      }
      assert r.Found? ==> exists k :: FirstMatchAt(bucket, order, name, parse, k) && bucket[order[k]] == r.json by {
        if r.Found? {
          var k :| FirstMatchAt(bucket, order[1..], name, parse, k) && bucket[order[1..][k]] == r.json;
          forall j | 0 <= j < k + 1 ensures !NameMatches(parse, bucket[order[j]], name) {
            if j > 0 {
              assert order[1..][j - 1] == order[j];
            }
          }
          assert FirstMatchAt(bucket, order, name, parse, k + 1);
        }
      }
      r
  }

  /** A server of the proxy's configuration and the players it reports as connected. */
  datatype ServerEntry = ServerEntry(name: string, connected: nat)

  /** The count shown for a server: the cached snapshots when there is a bucket. */
  function PlayerCount(data: Table<string>, e: ServerEntry): nat {
    if e.name in data then |data[e.name]| else e.connected
  }

  // ---------------------------------------------------------------- the controller

  class BungeePlayerController {
    /** `playerDataMap`: the last snapshot of each player, per server. */
    var playerData: Table<string>
    /** `lastUpdateTimeMap`: when each snapshot arrived, in milliseconds. */
    var lastUpdate: Table<int>

    /** Every snapshot has a time and every time a snapshot. */
    ghost predicate Valid()
      reads this
    {
      Aligned(playerData, lastUpdate)
    }

    constructor ()
      ensures Valid() && playerData == map[] && lastUpdate == map[]
    {
      playerData := map[];
      lastUpdate := map[];
    }

    /** `updatePlayerData`: stores the snapshot, stamped with `now`. */
    method UpdatePlayerData(s: string, u: Uuid, json: string, now: int)
      requires Valid()
      modifies this
      ensures Valid()
      ensures playerData == Put(old(playerData), s, u, json)
      ensures lastUpdate == Put(old(lastUpdate), s, u, now)
    {
      PutAligned(playerData, lastUpdate, s, u, json, now);
      var bucket: map<Uuid, string> := if s in playerData then playerData[s] else map[];
      var times: map<Uuid, int> := if s in lastUpdate then lastUpdate[s] else map[];
      playerData := playerData[s := bucket[u := json]];
      lastUpdate := lastUpdate[s := times[u := now]];
    }

    /** `removePlayerData`: forgets one player of one server. */
    method RemovePlayerData(s: string, u: Uuid)
      requires Valid()
      modifies this
      ensures Valid()
      ensures playerData == Delete(old(playerData), s, u)
      ensures lastUpdate == Delete(old(lastUpdate), s, u)
    {
      DeleteAligned(playerData, lastUpdate, s, u);
      if s in playerData {
        var bucket := playerData[s];
        if u in bucket {
          playerData := playerData[s := bucket - {u}];
        } else {
          assert bucket - {u} == bucket;
        }
      }
      if s in lastUpdate {
        lastUpdate := lastUpdate[s := lastUpdate[s] - {u}];
      }
    }

    /**
     * `cleanupStaleData`: for each server, collects the players whose snapshot is more than
     * `maxAge` old at `now`, then removes them.
     */
    method CleanupStaleData(maxAge: int, now: int)
      requires Valid()
      modifies this
      ensures Valid()
      ensures playerData == Sweep(old(playerData), old(lastUpdate), now, maxAge)
      ensures lastUpdate == Sweep(old(lastUpdate), old(lastUpdate), now, maxAge)
    {
      ghost var data0 := playerData;
      ghost var times0 := lastUpdate;
      ghost var done: set<string> := {};
      SweepNone(data0, times0, now, maxAge);
      SweepNone(times0, times0, now, maxAge);
      var servers := lastUpdate.Keys;
      while servers != {}
        invariant Valid()
        invariant servers <= times0.Keys && done == times0.Keys - servers
        invariant playerData == SweepSome(data0, times0, now, maxAge, done)
        invariant lastUpdate == SweepSome(times0, times0, now, maxAge, done)
        decreases servers
      {
        var s :| s in servers;
        var stale := CollectStale(lastUpdate[s], maxAge, now);
        SweepStep(data0, times0, now, maxAge, done, s);
        SweepStep(times0, times0, now, maxAge, done, s);
        RemoveEach(s, stale);
        Visit(times0.Keys, servers, done, s);
        done := done + {s};
        servers := servers - {s};
      }
      SweepAll(data0, times0, now, maxAge);
      SweepAll(times0, times0, now, maxAge);
    }

    /** Removes each listed player from server `s`, one `removePlayerData` at a time. */
    method RemoveEach(s: string, players: seq<Uuid>)
      requires Valid() && s in playerData
      modifies this
      ensures Valid()
      ensures playerData == old(playerData)[s := old(playerData)[s] - Elems(players)]
      ensures lastUpdate == old(lastUpdate)[s := old(lastUpdate)[s] - Elems(players)]
    {
      ghost var data1 := playerData;
      ghost var times1 := lastUpdate;
      RemoveNone(data1, s, players);
      RemoveNone(times1, s, players);
      var i := 0;
      while i < |players|
        invariant 0 <= i <= |players|
        invariant Valid()
        invariant playerData == data1[s := data1[s] - Elems(players[..i])]
        invariant lastUpdate == times1[s := times1[s] - Elems(players[..i])]
      {
        RemoveNext(playerData, data1, s, data1[s], players, i);
        RemoveNext(lastUpdate, times1, s, times1[s], players, i);
        RemovePlayerData(s, players[i]);
        i := i + 1;
      }
      assert players[..|players|] == players;
    }

    /** `correctPlayerServerData`: removes the player from every server but `current`. */
    method CorrectPlayerServerData(u: Uuid, current: string)
      requires Valid()
      modifies this
      ensures Valid()
      ensures playerData == Evict(old(playerData), u, current)
      ensures lastUpdate == Evict(old(lastUpdate), u, current)
    {
      var data, times := playerData, lastUpdate;
      ghost var data0, times0 := data, times;
      ghost var done: set<string> := {};
      EvictAligned(data0, times0, u, current);
      EvictNone(data0, u, current);
      EvictNone(times0, u, current);
      var servers := data.Keys;
      while servers != {}
        invariant servers <= data0.Keys && done == data0.Keys - servers
        invariant data == EvictSome(data0, u, current, done)
        invariant times == EvictSome(times0, u, current, done)
        decreases servers
      {
        var s :| s in servers;
        EvictStep(data0, u, current, done, s);
        EvictStep(times0, u, current, done, s);
        if s != current && u in data[s] {
          data := data[s := data[s] - {u}];
          if s in times {
            times := times[s := times[s] - {u}];
          }
        } else {
          EvictSkip(data0, u, current, done, s);
          EvictSkip(times0, u, current, done, s);
        }
        Visit(data0.Keys, servers, done, s);
        done := done + {s};
        servers := servers - {s};
      }
      EvictAll(data0, u, current);
      EvictAll(times0, u, current);
      playerData, lastUpdate := data, times;
    }

    /**
     * `updatePlayersData`: stores what a payload carries (see `Updates`), all stamped with
     * `now`. `parse` is the environment's JSON parser.
     */
    method UpdatePlayersData(s: string, payload: string, parse: Parser, now: int)
      requires Valid()
      modifies this
      ensures Valid()
      ensures playerData == PutAll(old(playerData), s, Updates(payload, parse(payload)))
      ensures lastUpdate == PutAll(old(lastUpdate), s, Stamp(Updates(payload, parse(payload)), now))
    {
      var parsed := parse(payload);
      if parsed.None? {
        return;
      }
      var obj := parsed.value;
      if obj.uuid.Has() {
        if obj.uuid.Scalar? {
          var id := Uuids.FromString(obj.uuid.text);
          if id.Some? {
            PutAllCons(playerData, s, (id.value, payload), []);
            PutAllCons(lastUpdate, s, (id.value, now), []);
            assert [(id.value, payload)] + [] == Updates(payload, parsed);
            assert [(id.value, now)] + [] == Stamp(Updates(payload, parsed), now);
            UpdatePlayerData(s, id.value, payload, now);
          }
        }
      } else if obj.players.Array? {
        UpdateElements(s, obj.players.elements, now);
      }
    }

    /**
     * The `forEach` over a `players` array: each element in turn, until one throws past
     * the per-element handler.
     */
    method UpdateElements(s: string, es: seq<Element>, now: int)
      requires Valid()
      modifies this
      ensures Valid()
      ensures playerData == PutAll(old(playerData), s, ElementUpdates(es))
      ensures lastUpdate == PutAll(old(lastUpdate), s, Stamp(ElementUpdates(es), now))
    {
      ghost var data0 := playerData;
      ghost var times0 := lastUpdate;
      var i := 0;
      while i < |es| && !Stops(es[i])
        invariant 0 <= i <= |es|
        invariant Valid()
        invariant PutAll(playerData, s, ElementUpdates(es[i..])) == PutAll(data0, s, ElementUpdates(es))
        invariant PutAll(lastUpdate, s, Stamp(ElementUpdates(es[i..]), now)) ==
                  PutAll(times0, s, Stamp(ElementUpdates(es), now))
        decreases |es| - i
      {
        ElementUpdatesAt(es, i);
        ghost var first := ElementUpdate(es[i]);
        ghost var rest := ElementUpdates(es[i + 1..]);
        PutAllAppend(playerData, s, first, rest);
        StampAppend(first, rest, now);
        PutAllAppend(lastUpdate, s, Stamp(first, now), Stamp(rest, now));
        UpdateElement(s, es[i], now);
        i := i + 1;
      }
      assert ElementUpdates(es[i..]) == [];
    }

    /** The per-element body: an object with a name and a well-formed uuid is stored. */
    method UpdateElement(s: string, e: Element, now: int)
      requires Valid() && !Stops(e)
      modifies this
      ensures Valid()
      ensures playerData == PutAll(old(playerData), s, ElementUpdate(e))
      ensures lastUpdate == PutAll(old(lastUpdate), s, Stamp(ElementUpdate(e), now))
    {
      if e.obj.name.Has() && e.obj.uuid.Scalar? {
        var id := Uuids.FromString(e.obj.uuid.text);
        if id.Some? {
          PutAllCons(playerData, s, (id.value, e.obj.text), []);
          PutAllCons(lastUpdate, s, (id.value, now), []);
          assert [(id.value, e.obj.text)] + [] == ElementUpdate(e);
          assert [(id.value, now)] + [] == Stamp(ElementUpdate(e), now);
          UpdatePlayerData(s, id.value, e.obj.text, now);
        }
      }
    }

    /** `getServerPlayerData`: the bucket of a server, null when it has none. */
    function ServerPlayerData(s: string): (r: Option<map<Uuid, string>>)
      reads this
      ensures r.Some? <==> s in playerData
      ensures r.Some? ==> forall u :: Get(playerData, s, u) == (if u in r.value then Some(r.value[u]) else None)
    {
      if s in playerData then Some(playerData[s]) else None
    }

    /**
     * `handlePlayerList`: the names in a server's snapshots, in the bucket's iteration order
     * `order`; snapshots that do not parse or have no scalar name are skipped. A server
     * without a bucket gives the empty list.
     */
    method HandlePlayerList(s: string, order: seq<Uuid>, parse: Parser) returns (names: seq<string>)
      requires s in playerData ==> IsOrderOf(order, playerData[s])
      ensures s !in playerData ==> names == []
      ensures s in playerData ==> names == NamesIn(playerData[s], order, parse)
    {
      names := [];
      if s !in playerData {
        return;
      }
      var bucket := playerData[s];
      var i := |order|;
      while i > 0
        invariant 0 <= i <= |order|
        invariant names == NamesIn(bucket, order[i..], parse)
      {
        i := i - 1;
        assert order[i..][1..] == order[i + 1..];
        var n := NameOf(parse, bucket[order[i]]);
        if n.Some? {
          names := [n.value] + names;
        }
      }
    }

    /**
     * `handlePlayerDetails`: the first snapshot in `order` whose name matches `name`
     * ignoring case, or an error object.
     */
    method HandlePlayerDetails(s: string, name: string, order: seq<Uuid>, parse: Parser) returns (body: string)
      requires s in playerData ==> IsOrderOf(order, playerData[s])
      ensures s !in playerData ==> body == ServerNotFoundJson
      ensures s in playerData ==> body == DetailBody(FindByName(playerData[s], order, name, parse))
    {
      if s !in playerData {
        return ServerNotFoundJson;
      }
      var bucket := playerData[s];
      var i := 0;
      while i < |order|
        invariant 0 <= i <= |order|
        invariant FindByName(bucket, order, name, parse) == FindByName(bucket, order[i..], name, parse)
      {
        assert order[i..][1..] == order[i + 1..];
        var json := bucket[order[i]];
        if NameMatches(parse, json, name) {
          return json;
        }
        i := i + 1;
      }
      return PlayerNotFoundJson;
    }

    /**
     * `handleServerListWithPlayerCount`: every server of the proxy, in its map order, with
     * the number of cached snapshots, or the connected count when there is no bucket.
     */
    method HandleServerListWithPlayerCount(servers: seq<ServerEntry>) returns (counts: seq<(string, nat)>)
      ensures |counts| == |servers|
      ensures forall k :: 0 <= k < |servers| ==> counts[k] == (servers[k].name, PlayerCount(playerData, servers[k]))
    {
      counts := [];
      var i := 0;
      while i < |servers|
        invariant 0 <= i <= |servers|
        invariant |counts| == i
        invariant forall k :: 0 <= k < i ==> counts[k] == (servers[k].name, PlayerCount(playerData, servers[k]))
      {
        var e := servers[i];
        var count := if e.name in playerData then |playerData[e.name]| else e.connected;
        counts := counts + [(e.name, count)];
        i := i + 1;
      }
    }
  }

  /** The stale players of one server's times, collected in iteration order. */
  method CollectStale(times: map<Uuid, int>, maxAge: int, now: int) returns (stale: seq<Uuid>)
    ensures Elems(stale) == StaleIn(times, now, maxAge)
  {
    stale := [];
    var pending := times.Keys;
    while pending != {}
      invariant pending <= times.Keys
      invariant Elems(stale) == StaleIn(times, now, maxAge) - pending
      decreases pending
    {
      var u :| u in pending;
      if now - times[u] > maxAge {
        assert Elems(stale + [u]) == Elems(stale) + {u};
        stale := stale + [u];
      }
      pending := pending - {u};
    }
  }

  /** The players listed in `xs`. */
  function Elems(xs: seq<Uuid>): set<Uuid> {
    set x | x in xs
  }

  lemma ElemsSnoc(xs: seq<Uuid>, i: nat)
    requires i < |xs|
    ensures Elems(xs[..i + 1]) == Elems(xs[..i]) + {xs[i]}
  {
    assert xs[..i + 1] == xs[..i] + [xs[i]];
  }

  /** Before any removal, the bucket of `s` is whole. */
  lemma RemoveNone<T>(t: Table<T>, s: string, xs: seq<Uuid>)
    requires s in t
    ensures t[s := t[s] - Elems(xs[..0])] == t
  {
    assert Elems(xs[..0]) == {};
    assert t[s] - {} == t[s];
  }

  /** Removing `xs[i]` from a bucket that lacks `xs[..i]` leaves it lacking `xs[..i + 1]`. */
  lemma RemoveNext<T>(t: Table<T>, base: Table<T>, s: string, b: map<Uuid, T>, xs: seq<Uuid>, i: nat)
    requires i < |xs| && t == base[s := b - Elems(xs[..i])]
    ensures Delete(t, s, xs[i]) == base[s := b - Elems(xs[..i + 1])]
  {
    ElemsSnoc(xs, i);
    assert (b - Elems(xs[..i])) - {xs[i]} == b - Elems(xs[..i + 1]);
  }

  /** Moving one server from the pending set to the visited set. */
  lemma Visit(all: set<string>, pending: set<string>, done: set<string>, s: string)
    requires pending <= all && done == all - pending && s in pending
    ensures done + {s} == all - (pending - {s})
  {
  }

  /** `Evict` part-way through: only the servers of `done` have been visited. */
  function EvictSome<T>(t: Table<T>, u: Uuid, keep: string, done: set<string>): (r: Table<T>)
    ensures r.Keys == t.Keys
  {
    map s | s in t :: if s in done then EvictBucket(t[s], u, s, keep) else t[s]
  }

  lemma EvictNone<T>(t: Table<T>, u: Uuid, keep: string)
    ensures EvictSome(t, u, keep, {}) == t
  {
  }

  lemma EvictStep<T>(t: Table<T>, u: Uuid, keep: string, done: set<string>, s: string)
    requires s in t && s !in done
    ensures EvictSome(t, u, keep, done)[s] == t[s]
    ensures EvictSome(t, u, keep, done + {s}) == EvictSome(t, u, keep, done)[s := EvictBucket(t[s], u, s, keep)]
  {
  }

  /** Visiting `keep`, or a server without the player, changes nothing. */
  lemma EvictSkip<T>(t: Table<T>, u: Uuid, keep: string, done: set<string>, s: string)
    requires s in t && s !in done
    requires u !in t[s] || s == keep
    ensures EvictSome(t, u, keep, done + {s}) == EvictSome(t, u, keep, done)
  {
    if u !in t[s] {
      assert t[s] - {u} == t[s];
    }
  }

  lemma EvictAll<T>(t: Table<T>, u: Uuid, keep: string)
    ensures EvictSome(t, u, keep, t.Keys) == Evict(t, u, keep)
  {
  }

  /** `Sweep` part-way through: only the servers of `done` have been swept. */
  function SweepSome<T>(t: Table<T>, times: Table<int>, now: int, maxAge: int, done: set<string>): (r: Table<T>)
    requires Aligned(t, times)
    ensures r.Keys == t.Keys
  {
    map s | s in t :: if s in done then t[s] - StaleIn(times[s], now, maxAge) else t[s]
  }

  lemma SweepNone<T>(t: Table<T>, times: Table<int>, now: int, maxAge: int)
    requires Aligned(t, times)
    ensures SweepSome(t, times, now, maxAge, {}) == t
  {
  }

  lemma SweepStep<T>(t: Table<T>, times: Table<int>, now: int, maxAge: int, done: set<string>, s: string)
    requires Aligned(t, times) && s in t && s !in done
    ensures SweepSome(t, times, now, maxAge, done)[s] == t[s]
    ensures SweepSome(t, times, now, maxAge, done + {s}) ==
      SweepSome(t, times, now, maxAge, done)[s := t[s] - StaleIn(times[s], now, maxAge)]
  {
  }

  lemma SweepAll<T>(t: Table<T>, times: Table<int>, now: int, maxAge: int)
    requires Aligned(t, times)
    ensures SweepSome(t, times, now, maxAge, t.Keys) == Sweep(t, times, now, maxAge)
  {
  }

  /** The stores element `i` contributes, when it does not stop the iteration. */
  lemma ElementUpdatesAt(es: seq<Element>, i: nat)
    requires i < |es| && !Stops(es[i])
    ensures ElementUpdates(es[i..]) == ElementUpdate(es[i]) + ElementUpdates(es[i + 1..])
  {
    assert es[i..][1..] == es[i + 1..];
  }
}
