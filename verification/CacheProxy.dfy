/** A connection that answers reads from the client-side cache, against a server that pushes invalidations. */
module CacheProxy {
  import opened Helpers
  import opened ClientCache

  const DUMMY_CACHE_VALUE := "foo"

  type Db = map<string, string>

  /** What arrives on the connection: a reply, or the invalidation of one key or of everything. */
  datatype Message = Reply(value: Option<string>) | Invalidate(key: string) | InvalidateAll

  /** What other clients do. */
  datatype Remote = Write(key: string, value: Option<string>) | FlushDb

  /** What a cached command is a function of: its name and the current values of its keys. */
  type Eval = (string, seq<Option<string>>) -> Option<string>

  /** A command of this client: a read of some keys, or any other one with what it writes and answers. */
  datatype Command =
    | Read(name: string, keys: Option<seq<string>>)
    | Other(name: string, acts: seq<Remote>, reply: Option<string>, pushFirst: bool)
  {
    function Key(): CacheKey
      requires Read?
    {
      CacheKey(name, if keys.Some? then keys.value else [])
    }
  }

  function Lookup(db: Db, key: string): Option<string> {
    if key in db then Some(db[key]) else None
  }

  function Current(eval: Eval, db: Db, k: CacheKey): Option<string> {
    eval(k.command, seq(|k.redisKeys|, i requires 0 <= i < |k.redisKeys| => Lookup(db, k.redisKeys[i])))
  }

  /** A read is answered from the values of the keys it names, in their order, and from nothing else. */
  lemma {:induction false} ReadAnswer(eval: Eval, db: Db, name: string, keys: seq<string>)
    ensures Current(eval, db, Read(name, Some(keys)).Key()) ==
      eval(name, seq(|keys|, i requires 0 <= i < |keys| => if keys[i] in db then Some(db[keys[i]]) else None))
  {
    var k := Read(name, Some(keys)).Key();
    assert k.redisKeys == keys;
    assert seq(|k.redisKeys|, i requires 0 <= i < |k.redisKeys| => Lookup(db, k.redisKeys[i])) ==
      seq(|keys|, i requires 0 <= i < |keys| => if keys[i] in db then Some(db[keys[i]]) else None);
  }

  function Updated(db: Db, key: string, value: Option<string>): Db {
    if value.Some? then db[key := value.value] else db - {key}
  }

  /** What acts of clients, one after the other, make of the keys. */
  function Acted(db: Db, acts: seq<Remote>): Db {
    if acts == [] then db
    else
      match acts[|acts| - 1]
      case FlushDb => map[]
      case Write(key, None) => Acted(db, acts[..|acts| - 1]) - {key}
      case Write(key, Some(value)) => Acted(db, acts[..|acts| - 1])[key := value]
  }

  lemma {:induction false} ActedOnce(db: Db, r: Remote)
    ensures Acted(db, [r]) == match r case FlushDb => map[] case Write(key, value) => Updated(db, key, value)
  {
    assert [r][..0] == [];
  }

  lemma {:induction false} OneMoreAct(db: Db, acts: seq<Remote>, i: nat)
    requires i < |acts|
    ensures Acted(db, acts[..0]) == db && Acted(db, acts[..i + 1]) == Acted(Acted(db, acts[..i]), [acts[i]])
  {
    assert acts[..i + 1][..i] == acts[..i] && [acts[i]][..0] == [];
  }

  predicate Invalidates(m: Message, k: CacheKey) {
    m.InvalidateAll? || (m.Invalidate? && m.key in k.redisKeys)
  }

  predicate Pending(k: CacheKey, messages: seq<Message>) {
    exists i :: 0 <= i < |messages| && Invalidates(messages[i], k)
  }

  /** The value is what the server would answer now, and the server will tell when that changes; or it has told. */
  predicate Fresh(eval: Eval, db: Db, tracked: set<string>, messages: seq<Message>, k: CacheKey, v: string) {
    || Pending(k, messages)
    || (Current(eval, db, k) == Some(v) && forall i :: 0 <= i < |k.redisKeys| ==> k.redisKeys[i] in tracked)
  }

  predicate PushesOnly(messages: seq<Message>) {
    forall i :: 0 <= i < |messages| ==> !messages[i].Reply?
  }

  /** A write to one key never makes a stale value look fresh, and announces itself to those it makes stale. */
  lemma {:induction false} WriteKeepsFresh(eval: Eval, db: Db, tracked: set<string>, messages: seq<Message>,
      key: string,
      value: Option<string>, k: CacheKey, v: string)
    requires Fresh(eval, db, tracked, messages, k, v)
    ensures Fresh(eval, Updated(db, key, value), tracked - {key},
        messages + if key in tracked then [Invalidate(key)] else [], k, v)
  {
    var after := messages + if key in tracked then [Invalidate(key)] else [];
    if Pending(k, messages) {
      var i :| 0 <= i < |messages| && Invalidates(messages[i], k);
      assert Invalidates(after[i], k);
    } else if key in k.redisKeys {
      var i :| 0 <= i < |k.redisKeys| && k.redisKeys[i] == key;
      assert Invalidates(after[|messages|], k);
    } else {
      var db' := Updated(db, key, value);
      assert forall i :: 0 <= i < |k.redisKeys| ==> Lookup(db', k.redisKeys[i]) == Lookup(db, k.redisKeys[i]);
      assert seq(|k.redisKeys|, i requires 0 <= i < |k.redisKeys| => Lookup(db', k.redisKeys[i])) ==
             seq(|k.redisKeys|, i requires 0 <= i < |k.redisKeys| => Lookup(db, k.redisKeys[i]));
    }
  }

  lemma {:induction false} NothingPending(k: CacheKey)
    ensures !Pending(k, [])
  {
  }

  lemma {:induction false} PendingGrows(k: CacheKey, messages: seq<Message>, more: seq<Message>)
    ensures Pending(k, messages) || Pending(k, more) ==> Pending(k, messages + more)
  {
    var all := messages + more;
    if Pending(k, messages) {
      var i :| 0 <= i < |messages| && Invalidates(messages[i], k);
      assert Invalidates(all[i], k);
    }
    if Pending(k, more) {
      var i :| 0 <= i < |more| && Invalidates(more[i], k);
      assert Invalidates(all[|messages| + i], k);
    }
  }

  /** The server's side of one connection with tracking on. `history` lists the databases there have been. */
  class Server {
    const eval: Eval
    var db: Db
    var tracked: set<string>
    var stream: seq<Message>
    /** What other clients do before each of the next exchanges on this connection. */
    var interference: seq<seq<Remote>>
    ghost var history: seq<Db>
    /** How many commands of this connection were executed. */
    ghost var executed: nat

    constructor (eval: Eval, interference: seq<seq<Remote>>)
      ensures this.eval == eval && this.interference == interference && db == map[] && tracked == {} && stream == []
      ensures history == [db]
    {
      this.eval, this.interference, db, tracked, stream := eval, interference, map[], {}, [];
      history, executed := [map[]], 0;
    }

    ghost predicate Valid()
      reads this
    {
      history != [] && history[|history| - 1] == db
    }

    /** Nothing fresh went stale unannounced, from any point of the stream on. */
    twostate predicate KeepsFresh()
      reads this
    {
      && old(stream) <= stream && PushesOnly(stream[|old(stream)|..])
      && old(history) <= history
      && forall n, k, v :: 0 <= n <= |old(stream)| && Fresh(eval, old(db), old(tracked), old(stream)[n..], k, v) ==>
           Fresh(eval, db, tracked, stream[n..], k, v)
    }

    method ApplyRemote(r: Remote)
      requires Valid()
      modifies this
      ensures Valid() && KeepsFresh() && interference == old(interference) && executed == old(executed)
      ensures db == Acted(old(db), [r]) && history == old(history) + [db]
      ensures match r
              case Write(key, _) =>
                && tracked == old(tracked) - {key}
                && stream == old(stream) + if key in old(tracked) then [Invalidate(key)] else []
              case FlushDb => tracked == {} && stream == old(stream) + [InvalidateAll]
    {
      ActedOnce(db, r);
      match r {
      case Write(key, value) =>
        stream := stream + if key in tracked then [Invalidate(key)] else [];
        db := Updated(db, key, value);
        tracked := tracked - {key};
        assert stream[|old(stream)|..] == if key in old(tracked) then [Invalidate(key)] else [];
        forall n, k, v | 0 <= n <= |old(stream)| && Fresh(eval, old(db), old(tracked), old(stream)[n..], k, v)
          ensures Fresh(eval, db, tracked, stream[n..], k, v)
        {
          WriteKeepsFresh(eval, old(db), old(tracked), old(stream)[n..], key, value, k, v);
          assert stream[n..] == old(stream)[n..] + if key in old(tracked) then [Invalidate(key)] else [];
        }
      case FlushDb =>
        stream := stream + [InvalidateAll];
        db := map[];
        tracked := {};
        assert stream[|old(stream)|..] == [InvalidateAll];
        forall n, k: CacheKey | 0 <= n <= |old(stream)| ensures Pending(k, stream[n..]) {
          assert Invalidates(stream[n..][|old(stream)| - n], k);
        }
      }
      history := history + [db];
    }

    /** Other clients act. */
    method Interfere()
      requires Valid()
      modifies this
      ensures Valid() && KeepsFresh() && executed == old(executed)
      ensures |interference| == if old(interference) == [] then 0 else |old(interference)| - 1
      ensures old(interference) == [] ==> stream == old(stream) && db == old(db) && tracked == old(tracked)
      ensures old(interference) != [] ==> db == Acted(old(db), old(interference)[0])
    {
      if interference == [] {
        assert stream[|stream|..] == [];
        return;
      }
      var acts := interference[0];
      interference := interference[1..];
      ApplyAll(acts);
    }

    method ApplyAll(acts: seq<Remote>)
      requires Valid()
      modifies this
      ensures Valid() && KeepsFresh() && interference == old(interference) && executed == old(executed)
      ensures db == Acted(old(db), acts)
    {
      assert stream[|stream|..] == [];
      for i := 0 to |acts|
        invariant Valid() && KeepsFresh() && interference == old(interference) && executed == old(executed)
        invariant db == Acted(old(db), acts[..i])
      {
        label Before:
        OneMoreAct(old(db), acts, i);
        ApplyRemote(acts[i]);
        assert stream[|old(stream)|..] == old@Before(stream)[|old(stream)|..] + stream[|old@Before(stream)|..];
      }
      assert acts[..|acts|] == acts;
    }

    /**
     Executes a command of this connection: it may write keys, and a read has its keys tracked.
     Its own invalidations may arrive before or behind its reply, which is message `n`.
     */
    method Execute(command: Command) returns (ghost n: nat)
      requires Valid() && PushesOnly(stream)
      modifies this
      ensures Valid() && interference == old(interference) && old(history) <= history && executed == old(executed) + 1
      ensures n < |stream| && PushesOnly(stream[..n]) && PushesOnly(stream[n + 1..])
      ensures stream[n] == Reply(if command.Read? then Current(eval, db, command.Key()) else command.reply)
      ensures command.Read? ==> |stream| == |old(stream)| + 1
      ensures command.Other? ==> db == Acted(old(db), command.acts)
      ensures command.Read? ==> db == old(db) && forall r :: r in command.Key().redisKeys ==> r in tracked
      ensures forall k, v :: Fresh(eval, old(db), old(tracked), old(stream), k, v) ==>
          Fresh(eval, db, tracked, stream, k, v)
    {
      hide Pending;
      executed := executed + 1;
      if command.Read? || !command.pushFirst {
        n := Answer(command);
      }
      if command.Read? {
        tracked := tracked + set r | r in command.Key().redisKeys;
        return;
      }
      label Answered:
      ApplyAll(command.acts);
      assert stream[0..] == stream && old@Answered(stream)[0..] == old@Answered(stream);
      assert stream == old@Answered(stream) + stream[|old@Answered(stream)|..];
      if command.pushFirst {
        n := Answer(command);
      }
    }

    method Answer(command: Command) returns (ghost n: nat)
      requires Valid()
      modifies `stream
      ensures Valid() && n == |old(stream)|
      ensures stream == old(stream) + [Reply(if command.Read? then Current(eval, db, command.Key()) else command.reply)]
      ensures forall k, v :: Fresh(eval, db, tracked, old(stream), k, v) ==> Fresh(eval, db, tracked, stream, k, v)
    {
      n := |stream|;
      stream := stream + [Reply(if command.Read? then Current(eval, db, command.Key()) else command.reply)];
      forall k, v | Fresh(eval, db, tracked, old(stream), k, v) ensures Fresh(eval, db, tracked, stream, k, v) {
        PendingGrows(k, old(stream), [stream[n]]);
      }
    }

    method Receive() returns (m: Message)
      requires Valid() && stream != []
      modifies `stream
      ensures Valid() && [m] + stream == old(stream)
    {
      m := stream[0];
      stream := stream[1..];
    }
  }

  /** What has been read and does not concern an entry leaves it as fresh as it was. */
  lemma {:induction false} ReadingKeepsFresh(eval: Eval, db: Db, tracked: set<string>, m: Message,
      messages: seq<Message>, k: CacheKey,
      v: string)
    requires Fresh(eval, db, tracked, [m] + messages, k, v) && !Invalidates(m, k)
    ensures Fresh(eval, db, tracked, messages, k, v)
  {
  }

  lemma {:induction false} JustSetSurvives<V>(c: Contents<V>, e: CacheEntry<V>, maxSize: nat)
    requires c.Valid()
    ensures maxSize >= 1 ==> e.key in Evicted(Stored(c, e), maxSize).dict
  {
    hide Keeping, Distinct;
    var rest := Keeping(c.order, {e.key});
    KeepingMembers(c.order, {e.key});
    assert rest != [] ==> rest[0] in rest;
  }

  lemma {:induction false} OneKeyInvalidated<V>(c: Contents<V>, key: string)
    requires c.Valid()
    ensures var dict := Invalidated(c, [key]).dict;
      && (forall k :: k in dict <==> k in c.dict && key !in k.redisKeys)
      && (forall k :: k in dict ==> dict[k] == c.dict[k])
  {
    hide Invalidated, Keeping;
    InvalidationRemovesExactly(c, [key]);
    forall k: CacheKey ensures Reads(k, [key]) <==> key in k.redisKeys {
      assert [key][0] == key;
    }
  }

  type Entries = map<CacheKey, CacheEntry<string>>

  /** Every entry is valid and fresh, but the one whose reply is awaited, which is in progress. */
  ghost predicate Agrees(eval: Eval, db: Db, tracked: set<string>, messages: seq<Message>, entries: Entries,
      awaited: Option<CacheKey>) {
    forall k :: k in entries ==>
      if awaited == Some(k) then entries[k].status == IN_PROGRESS
      else entries[k].status == VALID && Fresh(eval, db, tracked, messages, k, entries[k].value)
  }

  /** CacheProxyConnection: one connection that owns its cache. */
  class CacheProxyConnection {
    const server: Server
    const cache: DefaultCache<string>
    var currentKey: Option<CacheKey>

    constructor (server: Server, cache: DefaultCache<string>)
      requires server.Valid() && server.stream == [] && cache.Collection() == Contents([], map[])
      ensures this.server == server && this.cache == cache && Idle()
    {
      this.server, this.cache, currentKey := server, cache, None;
    }

    ghost predicate Valid()
      reads this, server, cache
    {
      server.Valid() && cache.Collection().Valid()
    }

    /** Between commands: no reply is under way, and no entry is in progress. */
    ghost predicate Idle()
      reads this, server, cache
    {
      && Valid() && PushesOnly(server.stream)
      && Agrees(server.eval, server.db, server.tracked, server.stream, cache.dict, None)
    }

    /** A command was sent, and message `n` is its reply. */
    ghost predicate Awaiting(n: nat)
      reads this, server, cache
    {
      && Valid() && n < |server.stream| && server.stream[n].Reply?
      && PushesOnly(server.stream[..n]) && PushesOnly(server.stream[n + 1..])
      && Agrees(server.eval, server.db, server.tracked, server.stream, cache.dict, currentKey)
      && (currentKey.Some? ==>
            && currentKey.value.command in cache.allowed
            && (server.stream[n].value.Some? ==>
                  Fresh(server.eval, server.db, server.tracked, server.stream[n + 1..], currentKey.value,
                      server.stream[n].value.value)))
    }

    /** Nothing is on its way to this connection, and other clients have finished. */
    ghost predicate Quiet()
      reads server
    {
      server.stream == [] && server.interference == []
    }

    /** The command was answered from the cache, with what the server would answer now. */
    ghost predicate Hit()
      reads this, server, cache
    {
      && Idle() && currentKey.Some? && currentKey.value in cache.dict
      && Current(server.eval, server.db, currentKey.value) == Some(cache.dict[currentKey.value].value)
    }

    /** _on_invalidation_callback: exactly the entries concerned go. */
    method OnInvalidation(m: Message)
      requires cache.Collection().Valid() && !m.Reply?
      modifies cache
      ensures cache.Collection().Valid()
      ensures forall k :: k in cache.dict <==> k in old(cache.dict) && !Invalidates(m, k)
      ensures forall k :: k in cache.dict ==> cache.dict[k] == old(cache.dict)[k]
    {
      hide Invalidated, Keeping, Distinct;
      if m.InvalidateAll? {
        var count := cache.Flush();
      } else {
        ghost var before := cache.Collection();
        var completed, response := cache.DeleteByRedisKeys([m.key]);
        OneKeyInvalidated(before, m.key);
      }
    }

    method Cached(key: CacheKey) returns (entry: Option<CacheEntry<string>>)
      requires cache.Collection().Valid()
      modifies cache
      ensures cache.Collection().Valid() && cache.dict == old(cache.dict)
      ensures entry == if key in cache.dict then Some(cache.dict[key]) else None
    {
      hide Keeping, Distinct;
      entry := cache.Get(key);
    }

    /** Nothing but the entry stored is new, though others, and even itself, may have been evicted. */
    method Store(entry: CacheEntry<string>)
      requires cache.Collection().Valid() && entry.key.command in cache.allowed
      modifies cache
      ensures cache.Collection().Valid()
      ensures forall k :: k in cache.dict && k != entry.key ==>
          k in old(cache.dict) && cache.dict[k] == old(cache.dict)[k]
      ensures entry.key in cache.dict ==> cache.dict[entry.key] == entry
      ensures cache.maxSize >= 1 ==> entry.key in cache.dict
    {
      hide Keeping, Distinct;
      JustSetSurvives(cache.Collection(), entry, cache.maxSize);
      var stored := cache.Set(entry);
    }

    method Forget(key: CacheKey)
      requires cache.Collection().Valid()
      modifies cache
      ensures cache.Collection().Valid() && cache.dict == old(cache.dict) - {key}
    {
      hide Keeping, Distinct;
      PoppingKeepsTheRest(cache.Collection(), [key]);
      assert (set k | k in [key]) == {key};
      var deleted := cache.DeleteByCacheKeys([key]);
    }

    /** Other clients act, and nothing held here goes stale unannounced. */
    method Elsewhere(ghost n: nat)
      requires Idle() || Awaiting(n)
      modifies server
      ensures old(Idle()) ==> Idle()
      ensures old(Awaiting(n)) ==> Awaiting(n) && server.stream[n] == old(server.stream)[n]
      ensures old(server.history) <= server.history && server.executed == old(server.executed)
      ensures |server.interference| == if old(server.interference) == [] then 0 else |old(server.interference)| - 1
      ensures old(server.interference) == [] ==> server.stream == old(server.stream) && server.db == old(server.db)
    {
      hide Pending, Current, Distinct, Fresh;
      ghost var awaiting := Awaiting(n);
      ghost var before := server.stream;
      server.Interfere();
      ghost var more := server.stream[|before|..];
      assert server.stream == before + more;
      assert before[0..] == before && server.stream[0..] == server.stream;
      if awaiting {
        assert server.stream[n + 1..] == before[n + 1..] + more;
        assert server.stream[..n] == before[..n];
      }
    }

    /** _process_pending_invalidations: afterwards every entry is what the server would answer now. */
    method ProcessPendingInvalidations()
      requires Idle()
      modifies server, cache
      ensures Idle() && server.stream == [] && old(server.history) <= server.history
          && server.executed == old(server.executed)
      ensures old(Quiet()) ==> Quiet() && cache.dict == old(cache.dict)
    {
      hide Pending, Current, Distinct, Fresh;
      while true
        invariant Idle() && old(server.history) <= server.history && server.executed == old(server.executed)
        invariant old(Quiet()) ==> Quiet() && cache.dict == old(cache.dict)
        decreases |server.interference|, |server.stream|
      {
        Elsewhere(0);
        if server.stream == [] {
          return;
        }
        ReadInvalidation();
      }
    }

    /** Reads one message, while no reply is under way. */
    method ReadInvalidation()
      requires Idle() && server.stream != []
      modifies server, cache
      ensures Idle() && server.history == old(server.history) && server.executed == old(server.executed)
      ensures server.interference == old(server.interference) && server.stream == old(server.stream)[1..]
    {
      hide Pending, Current, Distinct, Fresh;
      ghost var before := server.stream;
      var m := server.Receive();
      assert m == before[0] && !before[0].Reply?;
      OnInvalidation(m);
      assert forall i :: 0 <= i < |server.stream| ==> server.stream[i] == before[i + 1];
      forall k | k in cache.dict
        ensures Fresh(server.eval, server.db, server.tracked, server.stream, k, cache.dict[k].value)
      {
        ReadingKeepsFresh(server.eval, server.db, server.tracked, m, server.stream, k, cache.dict[k].value);
      }
    }

    /** The command itself goes out, other clients having acted before it. */
    method Transmit(command: Command) returns (ghost reply: nat)
      requires Valid() && server.stream == []
      requires Agrees(server.eval, server.db, server.tracked, [], cache.dict, currentKey)
      requires currentKey.Some? ==> command.Read? && currentKey.value == command.Key() && command.name in cache.allowed
      modifies server
      ensures old(server.history) <= server.history && Awaiting(reply) && server.executed == old(server.executed) + 1
      ensures old(Quiet()) && command.Read? ==> |server.stream| == 1 && server.interference == []
      ensures server.stream[reply].value ==
        if command.Read? then Current(server.eval, server.db, command.Key()) else command.reply
    {
      hide Pending, Current, Distinct;
      server.Interfere();
      assert server.stream[0..] == server.stream;
      reply := server.Execute(command);
    }

    /** False stands for the ValueError of a cacheable command without keys. */
    method SendCommand(command: Command) returns (sent: bool, ghost reply: nat)
      requires Idle() && (command.Other? ==> command.name !in cache.allowed)
      modifies this, server, cache
      ensures old(server.history) <= server.history
      ensures sent <==> command.Read? && command.name in cache.allowed ==> command.keys.Some?
      ensures !sent ==> Idle()
      ensures sent && command.name in cache.allowed ==> currentKey == Some(command.Key())
      ensures sent && command.name !in cache.allowed ==> currentKey == None
      ensures sent ==> Hit() || Awaiting(reply)
      ensures server.executed == old(server.executed) + if sent && !Hit() then 1 else 0
      ensures sent && command.name in cache.allowed && old(Quiet()) ==>
        && (Hit() <==> command.Key() in old(cache.dict))
        && (Hit() ==> Quiet())
        && (!Hit() ==> |server.stream| == 1 && server.interference == [])
        && (!Hit() && cache.maxSize >= 1 ==> command.Key() in cache.dict)
      ensures sent && Awaiting(reply) ==>
        server.stream[reply].value ==
          if command.Read? then Current(server.eval, server.db, command.Key()) else command.reply
    {
      hide Pending, Distinct;
      reply := 0;
      ProcessPendingInvalidations();
      if command.name !in cache.allowed {
        currentKey := None;
        reply := Transmit(command);
        return true, reply;
      }
      if command.keys == None {
        return false, reply;
      }
      currentKey := Some(command.Key());
      var entry := Cached(command.Key());
      if entry.Some? {
        entry := Cached(command.Key());
        assert !Pending(command.Key(), server.stream) by {
          NothingPending(command.Key());
        }
        return true, reply;
      }
      Store(CacheEntry(command.Key(), DUMMY_CACHE_VALUE, IN_PROGRESS));
      reply := Transmit(command);
      return true, reply;
    }

    /** The parser's loop: invalidations are handled on the way to the reply. */
    method Receive(ghost reply: nat) returns (response: Option<string>)
      requires Awaiting(reply)
      modifies server, cache
      ensures Valid() && PushesOnly(server.stream) && old(server.history) <= server.history
      ensures response == old(server.stream)[reply].value && server.executed == old(server.executed)
      ensures old(server.interference) == [] && |old(server.stream)| == 1 ==> Quiet() && cache.dict == old(cache.dict)
      ensures Agrees(server.eval, server.db, server.tracked, server.stream, cache.dict, currentKey)
      ensures currentKey.Some? && response.Some? ==>
        Fresh(server.eval, server.db, server.tracked, server.stream, currentKey.value, response.value)
    {
      hide Pending, Current, Distinct, Fresh;
      ghost var n: nat, awaited := reply, server.stream[reply];
      while true
        invariant Awaiting(n) && server.stream[n] == awaited
        invariant old(server.history) <= server.history && server.executed == old(server.executed)
        invariant old(server.interference) == [] && |old(server.stream)| == 1 ==>
          n == 0 && |server.stream| == 1 && server.interference == [] && cache.dict == old(cache.dict)
        decreases n
      {
        Elsewhere(n);
        ghost var before := server.stream;
        var m := server.Receive();
        assert server.stream == before[1..];
        if m.Reply? {
          if n > 0 {
            PushComesFirst(before, n);
          }
          response := m.value;
          AfterReading(m, before, cache.dict);
          return;
        }
        OnInvalidation(m);
        forall k | k in cache.dict && currentKey != Some(k)
          ensures Fresh(server.eval, server.db, server.tracked, server.stream, k, cache.dict[k].value)
        {
          ReadingKeepsFresh(server.eval, server.db, server.tracked, m, server.stream, k, cache.dict[k].value);
        }
        assert server.stream[..n - 1] == before[..n][1..] && server.stream[n..] == before[n + 1..];
        n := n - 1;
      }
    }

    lemma {:induction false} PushComesFirst(messages: seq<Message>, n: nat)
      requires 0 < n <= |messages| && PushesOnly(messages[..n])
      ensures !messages[0].Reply?
    {
    }

    lemma {:induction false} AfterReading(m: Message, before: seq<Message>, entries: Entries)
      requires m.Reply? && [m] + server.stream == before
      requires Agrees(server.eval, server.db, server.tracked, before, entries, currentKey)
      ensures Agrees(server.eval, server.db, server.tracked, server.stream, entries, currentKey)
    {
    }

    /** What becomes of a reply from the wire: it is cached unless it is None or was invalidated meanwhile. */
    method Keep(response: Option<string>)
      requires Valid() && PushesOnly(server.stream)
      requires Agrees(server.eval, server.db, server.tracked, server.stream, cache.dict, currentKey)
      requires currentKey.Some? ==> currentKey.value.command in cache.allowed
      requires currentKey.Some? && response.Some? ==>
        Fresh(server.eval, server.db, server.tracked, server.stream, currentKey.value, response.value)
      modifies this, cache
      ensures Idle()
      ensures response.Some? ==> currentKey == None
      ensures response.Some? && old(currentKey).Some? && cache.maxSize >= 1 ==>
        (old(currentKey).value in old(cache.dict) ==> old(currentKey).value in cache.dict)
    {
      hide Pending, Current, Distinct, Fresh;
      if currentKey == None {
        return;
      }
      if response == None {
        Forget(currentKey.value);
        return;
      }
      var entry := Cached(currentKey.value);
      if entry.Some? {
        Store(entry.value.(value := response.value, status := VALID));
      }
      currentKey := None;
    }

    /** The reply to the command sent last: from the cache, or from the wire behind any invalidations. */
    method ReadResponse(ghost reply: nat) returns (response: Option<string>)
      requires Hit() || Awaiting(reply)
      modifies this, server, cache
      ensures Idle() && old(server.history) <= server.history
      ensures old(Hit()) ==> response == Current(server.eval, old(server.db), old(currentKey).value)
      ensures old(!Hit() && Awaiting(reply)) ==> response == old(server.stream)[reply].value
      ensures response.Some? ==> currentKey == None
      ensures server.executed == old(server.executed)
      ensures old(server.interference) == [] && |old(server.stream)| == (if old(Hit()) then 0 else 1) ==>
        && Quiet()
        && (response.Some? && old(currentKey).Some? && cache.maxSize >= 1 ==>
              (old(currentKey).value in old(cache.dict) ==> old(currentKey).value in cache.dict))
    {
      hide Pending, Current, Distinct, Fresh;
      Elsewhere(reply);
      if currentKey.Some? {
        var entry := Cached(currentKey.value);
        if entry.Some? && entry.value.status != IN_PROGRESS {
          response := Some(entry.value.value);
          currentKey := None;
          return;
        }
      }
      response := Receive(reply);
      Keep(response);
    }

    /** disconnect: nothing is kept, and the server forgets what it tracked for this connection. */
    method Disconnect()
      requires Valid()
      modifies server, cache
      ensures Idle() && cache.dict == map[] && server.stream == [] && server.db == old(server.db)
    {
      var count := cache.Flush();
      server.stream, server.tracked := [], {};
    }

    /**
     A whole command. The answer to a read, cached or not, is what the server held at some moment
     between the call and the return; any other command is answered by the server.
     When nobody interferes, the server is asked exactly for what is not cached, and then it is cached.
     */
    method ExecuteCommand(command: Command) returns (sent: bool, response: Option<string>)
      requires Idle() && (command.Other? ==> command.name !in cache.allowed)
      modifies this, server, cache
      ensures Idle() && old(server.history) <= server.history
      ensures sent <==> command.Read? && command.name in cache.allowed ==> command.keys.Some?
      ensures sent && command.Other? ==> response == command.reply
      ensures sent && command.Read? ==>
        exists t :: |old(server.history)| - 1 <= t < |server.history|
            && response == Current(server.eval, server.history[t], command.Key())
      ensures sent && command.name in cache.allowed && old(Quiet()) ==>
        && Quiet() && (server.executed == old(server.executed) <==> command.Key() in old(cache.dict))
        && (cache.maxSize >= 1 && response.Some? ==> command.Key() in cache.dict)
    {
      hide Pending, Current, Fresh, Agrees;
      ghost var reply;
      sent, reply := SendCommand(command);
      if !sent {
        return false, None;
      }
      ghost var t := |server.history| - 1;
      response := ReadResponse(reply);
      assert command.Read? ==> response == Current(server.eval, server.history[t], command.Key());
    }
  }
}
