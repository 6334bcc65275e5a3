/** The client-side cache: an ordered dict used as an LRU, specified by when each key was last used. */
module ClientCache {
  import opened Helpers

  datatype CacheKey = CacheKey(command: string, redisKeys: seq<string>)

  datatype Status = VALID | IN_PROGRESS

  datatype CacheEntry<V> = CacheEntry(key: CacheKey, value: V, status: Status)

  /** The contents of the OrderedDict: its keys from the oldest to the newest, and their entries. */
  datatype Contents<V> = Contents(order: seq<CacheKey>, dict: map<CacheKey, CacheEntry<V>>) {
    ghost predicate Valid() {
      && Distinct(order)
      && (forall k :: k in order <==> k in dict)
      && (forall k :: k in dict ==> dict[k].key == k)
    }
  }

  /** The keys that are not gone, in the same order. */
  function Keeping<K(==)>(order: seq<K>, gone: set<K>): (rest: seq<K>)
    ensures |rest| <= |order|
  {
    if order == [] then []
    else Keeping(order[..|order| - 1], gone) + if order[|order| - 1] in gone then [] else [order[|order| - 1]]
  }

  /** move_to_end */
  function Touched<V>(c: Contents<V>, k: CacheKey): Contents<V> {
    c.(order := Keeping(c.order, {k}) + [k])
  }

  /** pop */
  function Popped<V>(c: Contents<V>, k: CacheKey): Contents<V> {
    Contents(Keeping(c.order, {k}), c.dict - {k})
  }

  function PoppedAll<V>(c: Contents<V>, keys: seq<CacheKey>): Contents<V> {
    if keys == [] then c else Popped(PoppedAll(c, keys[..|keys| - 1]), keys[|keys| - 1])
  }

  function Stored<V>(c: Contents<V>, e: CacheEntry<V>): Contents<V> {
    Touched(c.(dict := c.dict[e.key := e]), e.key)
  }

  function Evicted<V>(c: Contents<V>, maxSize: nat): Contents<V> {
    if |c.order| > maxSize then Popped(c, c.order[0]) else c
  }

  // ---------------------------------------------------------------- invalidation

  /** The cached keys that read one redis key. */
  function Matches(order: seq<CacheKey>, redisKey: string): seq<CacheKey> {
    if order == [] then []
    else
      var k := order[|order| - 1];
      Matches(order[..|order| - 1], redisKey) + if redisKey in k.redisKeys then [k] else []
  }

  /** The keys to delete: one for every pair of an invalidated redis key and a cached key that reads it. */
  function AllMatches(order: seq<CacheKey>, redisKeys: seq<string>): seq<CacheKey> {
    if redisKeys == [] then []
    else AllMatches(order, redisKeys[..|redisKeys| - 1]) + Matches(order, redisKeys[|redisKeys| - 1])
  }

  /** No cached key reads two of the invalidated redis keys. */
  ghost predicate MatchedOnce(order: seq<CacheKey>, redisKeys: seq<string>) {
    forall k, i, j :: k in order && 0 <= i < j < |redisKeys| && redisKeys[i] in k.redisKeys ==>
        redisKeys[j] !in k.redisKeys
  }

  /** How many keys can be popped before one is popped a second time. */
  function Poppable<K(==)>(keys: seq<K>): (n: nat)
    ensures n <= |keys| && Distinct(keys[..n])
    ensures n < |keys| ==> keys[n] in keys[..n]
  {
    if keys == [] then 0
    else
      var init := keys[..|keys| - 1];
      var n := Poppable(init);
      assert init[..n] == keys[..n] && keys[..|init|] == init;
      if n < |init| || keys[|init|] in init then n else |keys|
  }

  function Invalidated<V>(c: Contents<V>, redisKeys: seq<string>): Contents<V> {
    var found := AllMatches(c.order, redisKeys);
    PoppedAll(c, found[..Poppable(found)])
  }

  lemma {:induction false} KeepingMember<K>(order: seq<K>, gone: set<K>, x: K)
    ensures x in Keeping(order, gone) <==> x in order && x !in gone
  {
    if order != [] {
      var init, last := order[..|order| - 1], order[|order| - 1];
      KeepingMember(init, gone, x);
      assert order == init + [last];
    }
  }

  lemma {:induction false} KeepingMembers<K(!new)>(order: seq<K>, gone: set<K>)
    ensures forall x :: x in Keeping(order, gone) <==> x in order && x !in gone
  {
    forall x ensures x in Keeping(order, gone) <==> x in order && x !in gone {
      KeepingMember(order, gone, x);
    }
  }

  lemma {:induction false} KeepingAppend<K>(order: seq<K>, x: K, gone: set<K>)
    ensures Keeping(order + [x], gone) == Keeping(order, gone) + if x in gone then [] else [x]
  {
  }

  lemma {:induction false} KeepingTwice<K>(order: seq<K>, a: set<K>, b: set<K>)
    ensures Keeping(Keeping(order, a), b) == Keeping(order, a + b)
  {
    if order != [] {
      var init, last := order[..|order| - 1], order[|order| - 1];
      KeepingTwice(init, a, b);
      if last in a {
        assert Keeping(order, a) == Keeping(init, a);
      } else {
        assert Keeping(order, a) == Keeping(init, a) + [last];
        KeepingAppend(Keeping(init, a), last, b);
      }
    }
  }

  lemma {:induction false} KeepingAll<K>(order: seq<K>)
    ensures Keeping(order, {}) == order
  {
    if order != [] {
      KeepingAll(order[..|order| - 1]);
    }
  }

  lemma {:induction false} PoppingKeepsTheRest<V>(c: Contents<V>, keys: seq<CacheKey>)
    ensures PoppedAll(c, keys).order == Keeping(c.order, set k | k in keys)
    ensures PoppedAll(c, keys).dict == c.dict - set k | k in keys
  {
    hide Keeping;
    if keys == [] {
      KeepingAll(c.order);
      assert (set k | k in keys) == {};
    } else {
      var init, last := keys[..|keys| - 1], keys[|keys| - 1];
      PoppingKeepsTheRest(c, init);
      LastOfSet(keys);
      KeepingTwice(c.order, set k | k in init, {last});
      MinusTwice(c.dict, set k | k in init, {last});
    }
  }

  lemma {:induction false} LastOfSet<K>(keys: seq<K>)
    requires keys != []
    ensures var init := keys[..|keys| - 1]; (set k | k in keys) == (set k | k in init) + {keys[|keys| - 1]}
  {
    assert keys == keys[..|keys| - 1] + [keys[|keys| - 1]];
  }

  lemma {:induction false} MinusTwice<K, V>(m: map<K, V>, a: set<K>, b: set<K>)
    ensures m - a - b == m - (a + b)
  {
  }

  /** Whether a cached key reads one of the redis keys. */
  predicate Reads(k: CacheKey, redisKeys: seq<string>) {
    exists i :: 0 <= i < |redisKeys| && redisKeys[i] in k.redisKeys
  }

  lemma {:induction false} MatchesMember(order: seq<CacheKey>, redisKey: string, k: CacheKey)
    ensures k in Matches(order, redisKey) <==> k in order && redisKey in k.redisKeys
  {
    if order != [] {
      var init, last := order[..|order| - 1], order[|order| - 1];
      MatchesMember(init, redisKey, k);
      assert order == init + [last];
    }
  }

  lemma {:induction false} AllMatchesMember(order: seq<CacheKey>, redisKeys: seq<string>, k: CacheKey)
    ensures k in AllMatches(order, redisKeys) <==> k in order && Reads(k, redisKeys)
  {
    if redisKeys != [] {
      var init, last := redisKeys[..|redisKeys| - 1], redisKeys[|redisKeys| - 1];
      AllMatchesMember(order, init, k);
      MatchesMember(order, last, k);
      OneMoreRead(k, redisKeys);
      hide Matches, Reads;
    }
  }

  lemma {:induction false} OneMoreRead(k: CacheKey, redisKeys: seq<string>)
    requires redisKeys != []
    ensures Reads(k, redisKeys) <==> Reads(k, redisKeys[..|redisKeys| - 1]) || redisKeys[|redisKeys| - 1] in k.redisKeys
  {
    var init := redisKeys[..|redisKeys| - 1];
    if Reads(k, redisKeys) {
      var i :| 0 <= i < |redisKeys| && redisKeys[i] in k.redisKeys;
      assert i < |init| ==> init[i] in k.redisKeys;
    }
    if Reads(k, init) {
      var i :| 0 <= i < |init| && init[i] in k.redisKeys;
      assert redisKeys[i] in k.redisKeys;
    }
  }

  lemma {:induction false} AllPoppable<K>(keys: seq<K>)
    requires Distinct(keys)
    ensures Poppable(keys) == |keys|
  {
  }

  lemma {:induction false} MatchesDistinct(order: seq<CacheKey>, redisKey: string)
    requires Distinct(order)
    ensures Distinct(Matches(order, redisKey))
  {
    if order != [] {
      var init, last := order[..|order| - 1], order[|order| - 1];
      MatchesDistinct(init, redisKey);
      MatchesMember(init, redisKey, last);
      assert last !in init by {
        assert forall i :: 0 <= i < |init| ==> init[i] == order[i];
      }
    }
  }

  /** The deletion loop meets no key twice exactly when no cached key is matched twice. */
  lemma {:induction false} DistinctExactlyWhenMatchedOnce(order: seq<CacheKey>, redisKeys: seq<string>)
    requires Distinct(order)
    ensures Distinct(AllMatches(order, redisKeys)) <==> MatchedOnce(order, redisKeys)
  {
    if redisKeys != [] {
      var init, last := redisKeys[..|redisKeys| - 1], redisKeys[|redisKeys| - 1];
      var left, right := AllMatches(order, init), Matches(order, last);
      DistinctExactlyWhenMatchedOnce(order, init);
      MatchesDistinct(order, last);
      DistinctConcat(left, right);
      forall k ensures k in left && k in right <==> k in order && Reads(k, init) && last in k.redisKeys {
        AllMatchesMember(order, init, k);
        MatchesMember(order, last, k);
      }
      MatchedOnceInit(order, redisKeys);
    }
  }

  lemma {:induction false} MatchedOnceInit(order: seq<CacheKey>, redisKeys: seq<string>)
    requires redisKeys != []
    ensures var init, last := redisKeys[..|redisKeys| - 1], redisKeys[|redisKeys| - 1];
      MatchedOnce(order, redisKeys) <==>
        MatchedOnce(order, init) && forall k :: k in order && Reads(k, init) ==> last !in k.redisKeys
  {
  }

  lemma {:induction false} DistinctConcat<K(!new)>(left: seq<K>, right: seq<K>)
    ensures Distinct(left + right) <==> Distinct(left) && Distinct(right) && forall k :: !(k in left && k in right)
  {
    var all := left + right;
    assert forall i :: 0 <= i < |left| ==> all[i] == left[i];
    assert forall j :: 0 <= j < |right| ==> all[|left| + j] == right[j];
    if Distinct(all) {
      forall i, j | 0 <= i < j < |right| ensures right[i] != right[j] {
        assert all[|left| + i] != all[|left| + j];
      }
      forall i, j | 0 <= i < |left| && 0 <= j < |right| ensures left[i] != right[j] {
        assert all[i] != all[|left| + j];
      }
    }
    if Distinct(left) && Distinct(right) && forall k :: !(k in left && k in right) {
      forall i, j | 0 <= i < j < |all| ensures all[i] != all[j] {
        if i < |left| <= j {
          assert left[i] in left && right[j - |left|] in right;
        }
      }
    }
  }

  lemma {:induction false} SetOfMatches(order: seq<CacheKey>, redisKeys: seq<string>)
    ensures (set k | k in AllMatches(order, redisKeys)) == set k | k in order && Reads(k, redisKeys)
  {
    forall k ensures k in AllMatches(order, redisKeys) <==> k in order && Reads(k, redisKeys) {
      AllMatchesMember(order, redisKeys, k);
    }
  }

  /** When no cached key is matched twice, exactly the matching entries go, and the others keep their order. */
  lemma {:induction false} InvalidationRemovesExactly<V>(c: Contents<V>, redisKeys: seq<string>)
    requires c.Valid() && MatchedOnce(c.order, redisKeys)
    ensures var gone := set k | k in c.order && Reads(k, redisKeys);
      Invalidated(c, redisKeys) == Contents(Keeping(c.order, gone), c.dict - gone)
  {
    hide AllMatches, Poppable, PoppedAll, Reads, Keeping;
    var found := AllMatches(c.order, redisKeys);
    DistinctExactlyWhenMatchedOnce(c.order, redisKeys);
    assert Poppable(found) == |found| by {
      AllPoppable(found);
    }
    assert found[..|found|] == found;
    PoppingKeepsTheRest(c, found);
    SetOfMatches(c.order, redisKeys);
  }

  // ---------------------------------------------------------------- runs

  datatype Op<V> =
    | SetOp(entry: CacheEntry<V>) | GetOp(key: CacheKey)
    | DeleteOp(keys: seq<CacheKey>) | InvalidateOp(redisKeys: seq<string>) | FlushOp

  function Apply<V>(c: Contents<V>, op: Op<V>, maxSize: nat, allowed: set<string>): Contents<V> {
    match op
    case SetOp(e) => if e.key.command in allowed then Evicted(Stored(c, e), maxSize) else c
    case GetOp(k) => if k in c.dict then Touched(c, k) else c
    case DeleteOp(keys) => PoppedAll(c, keys)
    case InvalidateOp(redisKeys) => Invalidated(c, redisKeys)
    case FlushOp => Contents([], map[])
  }

  function Run<V>(ops: seq<Op<V>>, maxSize: nat, allowed: set<string>): Contents<V> {
    if ops == [] then Contents([], map[])
    else Apply(Run(ops[..|ops| - 1], maxSize, allowed), ops[|ops| - 1], maxSize, allowed)
  }

  predicate Uses<V>(op: Op<V>, k: CacheKey) {
    (op.SetOp? && op.entry.key == k) || (op.GetOp? && op.key == k)
  }

  /** The number of the last operation that set or read the key; 0 when none did. */
  function LastUse<V>(ops: seq<Op<V>>, k: CacheKey): (n: nat)
    ensures n <= |ops|
  {
    if ops == [] then 0 else if Uses(ops[|ops| - 1], k) then |ops| else LastUse(ops[..|ops| - 1], k)
  }

  predicate ByLastUse<V>(ops: seq<Op<V>>, order: seq<CacheKey>) {
    forall i, j :: 0 <= i < j < |order| ==> LastUse(ops, order[i]) < LastUse(ops, order[j])
  }

  lemma {:induction false} KeepingByLastUse<V>(ops: seq<Op<V>>, order: seq<CacheKey>, gone: set<CacheKey>)
    requires ByLastUse(ops, order)
    ensures ByLastUse(ops, Keeping(order, gone))
  {
    if order != [] {
      var init, last := order[..|order| - 1], order[|order| - 1];
      KeepingByLastUse(ops, init, gone);
      KeepingMembers(init, gone);
      forall x | x in Keeping(init, gone) ensures LastUse(ops, x) < LastUse(ops, last) {
        var i :| 0 <= i < |init| && init[i] == x;
        assert order[i] == x;
      }
    }
  }

  lemma {:induction false} UnusedKeepsOrder<V>(ops: seq<Op<V>>, op: Op<V>, order: seq<CacheKey>)
    requires ByLastUse(ops, order) && forall k :: k in order ==> !Uses(op, k)
    ensures ByLastUse(ops + [op], order)
  {
  }

  /** Moving the used key to the end keeps the keys sorted by their last use. */
  lemma {:induction false} TouchedByLastUse<V>(ops: seq<Op<V>>, op: Op<V>, c: Contents<V>, k: CacheKey)
    requires ByLastUse(ops, c.order) && (op.SetOp? || op.GetOp?) && Uses(op, k)
    ensures ByLastUse(ops + [op], Touched(c, k).order)
  {
    KeepingByLastUse(ops, c.order, {k});
    KeepingMembers(c.order, {k});
    var rest := Keeping(c.order, {k});
    UnusedKeepsOrder(ops, op, rest);
    assert (ops + [op])[..|ops|] == ops;
    assert forall x :: x in rest ==> LastUse(ops + [op], x) == LastUse(ops, x) <= |ops|;
  }

  lemma {:induction false} SortedIsDistinct<V>(ops: seq<Op<V>>, order: seq<CacheKey>)
    requires ByLastUse(ops, order)
    ensures Distinct(order)
  {
  }

  lemma {:induction false} KeepingOne<K>(order: seq<K>, k: K)
    requires Distinct(order)
    ensures |Keeping(order, {k})| == if k in order then |order| - 1 else |order|
  {
    if order != [] {
      KeepingOne(order[..|order| - 1], k);
    }
  }

  /** Only commands on the allow list are ever cached. */
  predicate Cachable(order: seq<CacheKey>, allowed: set<string>) {
    forall k :: k in order ==> k.command in allowed
  }

  ghost predicate IsLru<V>(ops: seq<Op<V>>, c: Contents<V>, maxSize: nat, allowed: set<string>) {
    c.Valid() && ByLastUse(ops, c.order) && |c.order| <= maxSize && Cachable(c.order, allowed)
  }

  /** Over any run the dict is sorted by last use, consistent, and never larger than max_size. */
  lemma {:induction false} RunIsLru<V>(ops: seq<Op<V>>, maxSize: nat, allowed: set<string>)
    ensures IsLru(ops, Run(ops, maxSize, allowed), maxSize, allowed)
  {
    if ops != [] {
      var init, op := ops[..|ops| - 1], ops[|ops| - 1];
      RunIsLru(init, maxSize, allowed);
      assert ops == init + [op];
      StepIsLru(init, op, Run(init, maxSize, allowed), maxSize, allowed);
    }
  }

  lemma {:induction false} StepIsLru<V>(ops: seq<Op<V>>, op: Op<V>, c: Contents<V>, maxSize: nat, allowed: set<string>)
    requires IsLru(ops, c, maxSize, allowed)
    ensures IsLru(ops + [op], Apply(c, op, maxSize, allowed), maxSize, allowed)
  {
    hide Keeping, LastUse;
    match op
    case SetOp(e) =>
      if e.key.command in allowed {
        SetIsLru(ops, e, c, maxSize);
      } else {
        UnusedKeepsOrder(ops, op, c.order);
      }
    case GetOp(k) =>
      if k in c.dict {
        TouchedByLastUse(ops, op, c, k);
        SortedIsDistinct(ops + [op], Touched(c, k).order);
        KeepingMembers(c.order, {k});
        KeepingOne(c.order, k);
      } else {
        UnusedKeepsOrder(ops, op, c.order);
      }
    case DeleteOp(keys) =>
      PoppedIsLru(ops, op, c, keys);
    case InvalidateOp(redisKeys) =>
      var found := AllMatches(c.order, redisKeys);
      PoppedIsLru(ops, op, c, found[..Poppable(found)]);
    case FlushOp =>
  }

  lemma {:induction false} PoppedIsLru<V>(ops: seq<Op<V>>, op: Op<V>, c: Contents<V>, keys: seq<CacheKey>)
    requires c.Valid() && ByLastUse(ops, c.order) && !op.SetOp? && !op.GetOp?
    ensures var d := PoppedAll(c, keys);
      d.Valid() && ByLastUse(ops + [op], d.order) && |d.order| <= |c.order| && forall k :: k in d.order ==> k in c.order
  {
    hide Keeping, LastUse;
    PoppingKeepsTheRest(c, keys);
    KeepingMembers(c.order, set k | k in keys);
    KeepingByLastUse(ops, c.order, set k | k in keys);
    UnusedKeepsOrder(ops, op, PoppedAll(c, keys).order);
    SortedIsDistinct(ops + [op], PoppedAll(c, keys).order);
  }

  lemma {:induction false} SetIsLru<V>(ops: seq<Op<V>>, e: CacheEntry<V>, c: Contents<V>, maxSize: nat)
    requires c.Valid() && ByLastUse(ops, c.order) && |c.order| <= maxSize
    ensures var d := Evicted(Stored(c, e), maxSize);
      && d.Valid() && ByLastUse(ops + [SetOp(e)], d.order) && |d.order| <= maxSize
      && forall k :: k in d.order ==> k in c.order || k == e.key
  {
    hide Keeping, LastUse, ByLastUse, Distinct, Evicted;
    var all := ops + [SetOp(e)];
    var s := Stored(c, e);
    StoredValid(c, e);
    assert s == Touched(c.(dict := c.dict[e.key := e]), e.key);
    TouchedByLastUse(ops, SetOp(e), c.(dict := c.dict[e.key := e]), e.key);
    KeepingMembers(c.order, {e.key});
    KeepingOne(c.order, e.key);
    EvictedIsLru(all, s, maxSize);
  }

  lemma {:induction false} EvictedIsLru<V>(ops: seq<Op<V>>, s: Contents<V>, maxSize: nat)
    requires s.Valid() && ByLastUse(ops, s.order) && |s.order| <= maxSize + 1
    ensures var d := Evicted(s, maxSize);
      d.Valid() && ByLastUse(ops, d.order) && |d.order| <= maxSize && forall k :: k in d.order ==> k in s.order
  {
    hide Keeping, LastUse, ByLastUse, Distinct;
    if |s.order| > maxSize {
      var first := s.order[0];
      PoppedValid(s, first);
      KeepingMembers(s.order, {first});
      KeepingByLastUse(ops, s.order, {first});
      KeepingOne(s.order, first);
    }
  }

  /**
   A set that overflows the cache evicts one key, and no remaining key was used longer ago. The key that
   was just set is evicted only when nothing may be cached at all.
   */
  lemma {:induction false} VictimIsLeastRecentlyUsed<V>(ops: seq<Op<V>>, e: CacheEntry<V>, maxSize: nat,
      allowed: set<string>)
    requires e.key.command in allowed
    ensures var before, after, all := Run(ops, maxSize, allowed), Run(ops + [SetOp(e)], maxSize, allowed),
        ops + [SetOp(e)];
      && (forall gone, kept :: (gone in before.dict || gone == e.key) && gone !in after.dict && kept in after.dict ==>
            LastUse(all, gone) < LastUse(all, kept))
      && |before.dict - after.dict.Keys| <= 1
      && (e.key in after.dict <==> maxSize > 0) && (e.key in after.dict ==> after.dict[e.key] == e)
  {
    hide LastUse, Keeping, ByLastUse, Run, Stored, Evicted;
    var all, before, after := ops + [SetOp(e)], Run(ops, maxSize, allowed), Run(ops + [SetOp(e)], maxSize, allowed);
    OneMoreOp(ops, SetOp(e), maxSize, allowed);
    RunIsLru(ops, maxSize, allowed);
    TouchedByLastUse(ops, SetOp(e), before.(dict := before.dict[e.key := e]), e.key);
    assert Stored(before, e) == Touched(before.(dict := before.dict[e.key := e]), e.key)
        by { StoredIsTouched(before, e); }
    AfterSet(before, e, maxSize);
    FirstUsedFirst(all, Stored(before, e).order);
    VictimOf(before, e, after, maxSize, Stored(before, e).order);
  }

  lemma {:induction false} VictimOf<V>(before: Contents<V>, e: CacheEntry<V>, after: Contents<V>, maxSize: nat,
      order: seq<CacheKey>)
    requires |order| > 0 && forall k :: k in order <==> k in before.dict || k == e.key
    requires after.dict == if |order| > maxSize then before.dict[e.key := e] - {order[0]} else before.dict[e.key := e]
    requires |order| > maxSize && order[0] == e.key <==> maxSize == 0
    ensures forall gone :: (gone in before.dict || gone == e.key) && gone !in after.dict ==>
        gone == order[0] && |order| > maxSize
    ensures forall kept :: kept in after.dict ==> kept in order && (|order| > maxSize ==> kept != order[0])
    ensures |before.dict - after.dict.Keys| <= 1
    ensures (e.key in after.dict <==> maxSize > 0) && (e.key in after.dict ==> after.dict[e.key] == e)
  {
    var gone := (before.dict - after.dict.Keys).Keys;
    assert gone <= {order[0]};
    SmallSet(gone, order[0]);
  }

  lemma {:induction false} StoredIsTouched<V>(c: Contents<V>, e: CacheEntry<V>)
    ensures Stored(c, e) == Touched(c.(dict := c.dict[e.key := e]), e.key)
  {
  }

  /** A set puts its key last; on overflow exactly the first key goes. */
  lemma {:induction false} AfterSet<V>(c: Contents<V>, e: CacheEntry<V>, maxSize: nat)
    requires c.Valid() && |c.order| <= maxSize
    ensures var s := Stored(c, e);
      && |s.order| > 0 && s.order[|s.order| - 1] == e.key && Distinct(s.order)
      && (forall k :: k in s.order <==> k in c.dict || k == e.key)
      && Evicted(s, maxSize).dict ==
          (if |s.order| > maxSize then c.dict[e.key := e] - {s.order[0]} else c.dict[e.key := e])
      && (|s.order| > maxSize && s.order[0] == e.key <==> maxSize == 0)
  {
    hide Keeping;
    StoredValid(c, e);
    KeepingMembers(c.order, {e.key});
    KeepingOne(c.order, e.key);
  }

  lemma {:induction false} OneMoreOp<V>(ops: seq<Op<V>>, op: Op<V>, maxSize: nat, allowed: set<string>)
    ensures Run(ops + [op], maxSize, allowed) == Apply(Run(ops, maxSize, allowed), op, maxSize, allowed)
  {
  }

  lemma {:induction false} FirstUsedFirst<V>(ops: seq<Op<V>>, order: seq<CacheKey>)
    requires ByLastUse(ops, order) && order != []
    ensures forall k :: k in order && k != order[0] ==> LastUse(ops, order[0]) < LastUse(ops, k)
  {
  }

  lemma {:induction false} SmallSet(s: set<CacheKey>, x: CacheKey)
    requires s <= {x}
    ensures |s| <= 1
  {
    if x in s {
      assert s == {x};
    } else {
      assert s == {};
    }
  }

  // ---------------------------------------------------------------- the ordered dict itself

  /** DefaultCache with its LRUPolicy. */
  class DefaultCache<V> {
    var order: seq<CacheKey>
    var dict: map<CacheKey, CacheEntry<V>>
    const maxSize: nat
    const allowed: set<string>

    constructor (maxSize: nat, allowed: set<string>)
      ensures this.maxSize == maxSize && this.allowed == allowed && Collection() == Contents([], map[])
    {
      this.maxSize, this.allowed, order, dict := maxSize, allowed, [], map[];
    }

    function Collection(): Contents<V>
      reads this
    {
      Contents(order, dict)
    }

    predicate IsCachable(key: CacheKey) {
      key.command in allowed
    }

    /** LRUPolicy.touch */
    method Touch(key: CacheKey)
      requires Collection().Valid() && key in dict
      modifies this
      ensures Collection() == Touched(old(Collection()), key)
    {
      order := Keeping(order, {key}) + [key];
    }

    /** LRUPolicy.evict_next */
    method EvictNext() returns (victim: CacheKey)
      requires Collection().Valid() && order != []
      modifies this
      ensures victim == old(order[0]) && Collection() == Popped(old(Collection()), victim)
    {
      victim := order[0];
      PoppedFirst(order);
      order := order[1..];
      dict := dict - {victim};
    }

    method Set(entry: CacheEntry<V>) returns (stored: bool)
      requires Collection().Valid()
      modifies this
      ensures Collection() == Apply(old(Collection()), SetOp(entry), maxSize, allowed) && Collection().Valid()
      ensures stored == (entry.key.command in allowed)
    {
      if !IsCachable(entry.key) {
        return false;
      }
      hide Keeping, Distinct;
      ghost var before := Collection();
      Store(entry);
      SizeOf(Collection());
      if |dict| > maxSize {
        var victim := EvictNext();
        PoppedValid(Stored(before, entry), victim);
      }
      return true;
    }

    /** The assignment to the OrderedDict, where a new key comes last, and the touch. */
    method Store(entry: CacheEntry<V>)
      requires Collection().Valid()
      modifies this
      ensures Collection() == Stored(old(Collection()), entry) && Collection().Valid()
    {
      hide Keeping, Distinct;
      ghost var before := Collection();
      if entry.key !in dict {
        order := order + [entry.key];
      }
      dict := dict[entry.key := entry];
      KeepingAppend(before.order, entry.key, {entry.key});
      Appended(before, entry);
      Touch(entry.key);
      StoredValid(before, entry);
    }

    method Get(key: CacheKey) returns (entry: Option<CacheEntry<V>>)
      requires Collection().Valid()
      modifies this
      ensures Collection() == Apply(old(Collection()), GetOp(key), maxSize, allowed) && Collection().Valid()
      ensures entry == if key in old(dict) then Some(old(dict)[key]) else None
    {
      if key !in dict {
        return None;
      }
      entry := Some(dict[key]);
      TouchedValid(Collection(), key);
      Touch(key);
    }

    method DeleteByCacheKeys(keys: seq<CacheKey>) returns (response: seq<bool>)
      requires Collection().Valid()
      modifies this
      ensures Collection() == Apply(old(Collection()), DeleteOp(keys), maxSize, allowed) && Collection().Valid()
      ensures |response| == |keys| && forall i :: 0 <= i < |keys| ==>
          response[i] == (keys[i] in old(dict) && keys[i] !in keys[..i])
    {
      hide Keeping, PoppedAll;
      response := [];
      ghost var before := Collection();
      NonePopped(before);
      for i := 0 to |keys|
        invariant Collection().Valid() && Collection() == PoppedAll(before, keys[..i])
        invariant |response| == i && forall j :: 0 <= j < i ==>
            response[j] == (keys[j] in before.dict && keys[j] !in keys[..j])
      {
        OneMorePopped(before, keys, i);
        PoppingKeepsTheRest(before, keys[..i]);
        ghost var c := Collection();
        var found := Get(keys[i]);
        PoppedAfterTouch(c, keys[i]);
        PoppedValid(c, keys[i]);
        if found.Some? {
          order, dict := Keeping(order, {keys[i]}), dict - {keys[i]};
          response := response + [true];
        } else {
          response := response + [false];
        }
      }
      assert keys[..|keys|] == keys;
    }

    /** The loops that collect the keys to delete. */
    method KeysToDelete(redisKeys: seq<string>) returns (keys: seq<CacheKey>, response: seq<bool>)
      ensures keys == AllMatches(order, redisKeys) && |response| == |keys| && false !in response
    {
      hide Matches, AllMatches;
      keys, response := [], [];
      NoMatches(order);
      for r := 0 to |redisKeys|
        invariant keys == AllMatches(order, redisKeys[..r]) && |response| == |keys| && false !in response
      {
        ghost var found := keys;
        assert order[..0] == [];
        for k := 0 to |order|
          invariant keys == found + Matches(order[..k], redisKeys[r])
          invariant |response| == |keys| && false !in response
        {
          OneMoreMatch(order, k, redisKeys[r]);
          if redisKeys[r] in order[k].redisKeys {
            keys := keys + [order[k]];
            response := response + [true];
          }
        }
        assert order[..|order|] == order;
        OneMoreKey(order, redisKeys, r);
      }
      assert redisKeys[..|redisKeys|] == redisKeys;
    }

    /** The loop that pops the collected keys; false stands for the KeyError of a key that is gone. */
    method PopEach(keys: seq<CacheKey>) returns (completed: bool)
      requires Collection().Valid() && forall k :: k in keys ==> k in dict
      modifies this
      ensures Collection() == PoppedAll(old(Collection()), keys[..Poppable(keys)]) && Collection().Valid()
      ensures completed <==> Poppable(keys) == |keys|
    {
      hide Keeping, PoppedAll, Poppable, Distinct;
      ghost var before := Collection();
      NonePopped(before);
      for i := 0 to |keys|
        invariant i <= Poppable(keys)
        invariant Collection().Valid() && Collection() == PoppedAll(before, keys[..i])
      {
        PoppingKeepsTheRest(before, keys[..i]);
        PopGoesOn(keys, i);
        if keys[i] !in dict {
          return false;
        }
        OneMorePopped(before, keys, i);
        PoppedValid(Collection(), keys[i]);
        order, dict := Keeping(order, {keys[i]}), dict - {keys[i]};
      }
      return true;
    }

    /** False stands for a KeyError, which leaves the remaining keys in the cache. */
    method DeleteByRedisKeys(redisKeys: seq<string>) returns (completed: bool, response: seq<bool>)
      requires Collection().Valid()
      modifies this
      ensures Collection() == Apply(old(Collection()), InvalidateOp(redisKeys), maxSize, allowed)
          && Collection().Valid()
      ensures completed <==> MatchedOnce(old(order), redisKeys)
      ensures completed ==> |response| == |old(dict)| - |dict| && forall i :: 0 <= i < |response| ==> response[i]
    {
      hide Keeping, PoppedAll, AllMatches, Poppable, MatchedOnce, Distinct, Reads;
      ghost var before := Collection();
      var keysToDelete;
      keysToDelete, response := KeysToDelete(redisKeys);
      DistinctExactlyWhenMatchedOnce(before.order, redisKeys);
      forall k ensures k in keysToDelete ==> k in before.dict {
        AllMatchesMember(before.order, redisKeys, k);
      }
      completed := PopEach(keysToDelete);
      if completed {
        assert keysToDelete[..|keysToDelete|] == keysToDelete;
        AllPopped(keysToDelete);
        PoppingKeepsTheRest(before, keysToDelete);
        DistinctCount(before.dict, keysToDelete);
      } else if MatchedOnce(before.order, redisKeys) {
        AllPoppable(keysToDelete);
      }
    }

    method Flush() returns (count: nat)
      modifies this
      ensures Collection() == Apply(old(Collection()), FlushOp, maxSize, allowed) && Collection().Valid()
          && count == |old(dict)|
    {
      count := |dict|;
      order, dict := [], map[];
    }
  }

  lemma {:induction false} Appended<V>(c: Contents<V>, e: CacheEntry<V>)
    requires c.Valid()
    ensures Contents(if e.key in c.dict then c.order else c.order + [e.key], c.dict[e.key := e]).Valid()
  {
  }

  lemma {:induction false} NonePopped<V>(c: Contents<V>)
    ensures PoppedAll(c, []) == c
  {
  }

  lemma {:induction false} OneMorePopped<V>(c: Contents<V>, keys: seq<CacheKey>, i: nat)
    requires i < |keys|
    ensures PoppedAll(c, keys[..i + 1]) == Popped(PoppedAll(c, keys[..i]), keys[i])
  {
    assert keys[..i + 1][..i] == keys[..i];
  }

  lemma {:induction false} AllPopped<K>(keys: seq<K>)
    requires Poppable(keys) == |keys|
    ensures Distinct(keys)
  {
    assert keys[..|keys|] == keys;
  }

  lemma {:induction false} NoMatches(order: seq<CacheKey>)
    ensures AllMatches(order, []) == [] && forall r :: Matches([], r) == []
  {
  }

  lemma {:induction false} OneMoreMatch(order: seq<CacheKey>, k: nat, redisKey: string)
    requires k < |order|
    ensures Matches(order[..k + 1], redisKey) ==
      Matches(order[..k], redisKey) + if redisKey in order[k].redisKeys then [order[k]] else []
  {
    assert order[..k + 1][..k] == order[..k];
  }

  lemma {:induction false} OneMoreKey(order: seq<CacheKey>, redisKeys: seq<string>, r: nat)
    requires r < |redisKeys|
    ensures AllMatches(order, redisKeys[..r + 1]) == AllMatches(order, redisKeys[..r]) + Matches(order, redisKeys[r])
  {
    assert redisKeys[..r + 1][..r] == redisKeys[..r];
  }

  lemma {:induction false} PoppedFirst<K>(order: seq<K>)
    requires order != [] && Distinct(order)
    ensures Keeping(order, {order[0]}) == order[1..]
  {
    if |order| > 1 {
      PoppedFirst(order[..|order| - 1]);
      assert order[..|order| - 1][1..] + [order[|order| - 1]] == order[1..];
    }
  }

  lemma {:induction false} KeepingAbsent<K>(order: seq<K>, k: K)
    requires k !in order
    ensures Keeping(order, {k}) == order
  {
    if order != [] {
      var init, last := order[..|order| - 1], order[|order| - 1];
      assert order == init + [last];
      KeepingAbsent(init, k);
    }
  }

  lemma {:induction false} KeepingDistinct<K(!new)>(order: seq<K>, gone: set<K>)
    requires Distinct(order)
    ensures Distinct(Keeping(order, gone))
  {
    if order != [] {
      var init, last := order[..|order| - 1], order[|order| - 1];
      KeepingDistinct(init, gone);
      KeepingMembers(init, gone);
      assert last !in init by {
        assert forall i :: 0 <= i < |init| ==> init[i] == order[i];
      }
    }
  }

  lemma {:induction false} PoppedValid<V>(c: Contents<V>, k: CacheKey)
    requires c.Valid()
    ensures Popped(c, k).Valid()
  {
    hide Keeping;
    KeepingDistinct(c.order, {k});
    KeepingMembers(c.order, {k});
  }

  lemma {:induction false} TouchedValid<V>(c: Contents<V>, k: CacheKey)
    requires c.Valid() && k in c.dict
    ensures Touched(c, k).Valid()
  {
    hide Keeping;
    KeepingDistinct(c.order, {k});
    KeepingMembers(c.order, {k});
  }

  lemma {:induction false} StoredValid<V>(c: Contents<V>, e: CacheEntry<V>)
    requires c.Valid()
    ensures Stored(c, e).Valid()
  {
    hide Keeping;
    KeepingDistinct(c.order, {e.key});
    KeepingMembers(c.order, {e.key});
  }

  /** Deleting after the look-up that deletion performs is deleting. */
  lemma {:induction false} PoppedAfterTouch<V>(c: Contents<V>, k: CacheKey)
    requires c.Valid()
    ensures Popped(Touched(c, k), k) == Popped(c, k)
    ensures k !in c.dict ==> Popped(c, k) == c
  {
    hide Keeping;
    var rest := Keeping(c.order, {k});
    KeepingMembers(c.order, {k});
    KeepingAppend(rest, k, {k});
    KeepingAbsent(rest, k);
    if k !in c.dict {
      KeepingAbsent(c.order, k);
      assert c.dict - {k} == c.dict;
    }
  }

  lemma {:induction false} SizeOf<V>(c: Contents<V>)
    requires c.Valid()
    ensures |c.order| == |c.dict|
  {
    SetOfDistinct(c.order);
    assert (set k | k in c.order) == c.dict.Keys;
  }

  /** While the popped keys are distinct, the next one is still there exactly when it is new. */
  lemma {:induction false} PopGoesOn<K>(keys: seq<K>, i: nat)
    requires i < |keys| && i <= Poppable(keys)
    ensures keys[i] !in keys[..i] <==> i < Poppable(keys)
    ensures Distinct(keys) ==> i < Poppable(keys)
  {
    hide Poppable;
    var n := Poppable(keys);
    if i < n {
      var prefix := keys[..n];
      assert prefix[i] == keys[i] && prefix[..i] == keys[..i];
      assert forall j :: 0 <= j < i ==> prefix[..i][j] == prefix[j];
    } else {
      var j :| 0 <= j < n && keys[..n][j] == keys[n];
      assert keys[j] == keys[n];
    }
  }

  lemma {:induction false} DistinctCount<V>(dict: map<CacheKey, CacheEntry<V>>, keys: seq<CacheKey>)
    requires Distinct(keys) && forall k :: k in keys ==> k in dict
    ensures |keys| == |dict| - |dict - set k | k in keys|
  {
    SetOfDistinct(keys);
    var gone := set k | k in keys;
    assert (dict - gone).Keys == dict.Keys - gone;
    assert |dict.Keys - gone| == |dict.Keys| - |gone| by {
      assert dict.Keys == (dict.Keys - gone) + gone;
    }
  }
}
