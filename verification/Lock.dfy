/**
 The distributed lock: a server key with a lease, compared and changed by scripts, under any interleaving of
 clients.
 */
module Locks {
  import opened Helpers

  type Token = nat

  type Id = nat

  /** What the lock's key holds, and when it expires, in milliseconds. */
  datatype Lease = Lease(token: Token, expiry: Option<int>)

  // ---------------------------------------------------------------- the server's commands

  /** What GET sees: an expired lease is not there. */
  function Live(key: Option<Lease>, now: int): Option<Lease> {
    if key.Some? && (key.value.expiry.Some? ==> now < key.value.expiry.value) then key else None
  }

  /** PEXPIRE on a key that is there; a time that is not in the future deletes it. */
  function PExpire(lease: Lease, now: int, ms: int): Option<Lease> {
    if ms <= 0 then None else Some(lease.(expiry := Some(now + ms)))
  }

  /** SET with NX and perhaps PX. */
  function SetNx(key: Option<Lease>, now: int, token: Token, px: Option<int>): (Option<Lease>, bool) {
    if Live(key, now).Some? then (key, false)
    else (Some(Lease(token, if px.Some? then Some(now + px.value) else None)), true)
  }

  function ReleaseScript(key: Option<Lease>, now: int, token: Token): (Option<Lease>, bool) {
    var lease := Live(key, now);
    if lease.None? || lease.value.token != token then (key, false) else (None, true)
  }

  function ExtendScript(key: Option<Lease>, now: int, token: Token, ms: int, replace: bool): (Option<Lease>, bool) {
    var lease := Live(key, now);
    if lease.None? || lease.value.token != token then (key, false)
    else if lease.value.expiry.None? then (key, false)
    else (PExpire(lease.value, now, if replace then ms else ms + (lease.value.expiry.value - now)), true)
  }

  function ReacquireScript(key: Option<Lease>, now: int, token: Token, ms: int): (Option<Lease>, bool) {
    var lease := Live(key, now);
    if lease.None? || lease.value.token != token then (key, false) else (PExpire(lease.value, now, ms), true)
  }

  // ---------------------------------------------------------------- all the clients of one key

  /** A Lock object: its timeout, the token it believes to hold, and the one an acquire call is trying to store. */
  datatype Client = Client(timeout: Option<int>, token: Option<Token>, trying: Option<Token>)

  datatype State = State(now: int, key: Option<Lease>, clients: map<Id, Client>, used: set<Token>)

  datatype Action =
    | Tick(ms: nat)
    | Begin(newToken: Token)
    | Try
    | GiveUp
    | Release
    | Extend(additional: int, replace: bool)
    | Reacquire

  /** The PX argument of do_acquire; a timeout of zero asks for none. */
  function Px(timeout: Option<int>): Option<int> {
    if timeout == Some(0) then None else timeout
  }

  predicate Enabled(s: State, c: Id, a: Action) {
    && c in s.clients
    && (a.Begin? ==> a.newToken !in s.used)
    && (a.Try? ==> s.clients[c].trying.Some?)
  }

  /** One atomic step of a client, or of the clock. */
  function Step(s: State, c: Id, a: Action): State
    requires Enabled(s, c, a)
  {
    var client := s.clients[c];
    match a
    case Tick(ms) => s.(now := s.now + ms)
    case Begin(token) => s.(clients := s.clients[c := client.(trying := Some(token))], used := s.used + {token})
    case GiveUp => s.(clients := s.clients[c := client.(trying := None)])
    case Try =>
      if Px(client.timeout).Some? && Px(client.timeout).value <= 0 then s
      else
        var (key, stored) := SetNx(s.key, s.now, client.trying.value, Px(client.timeout));
        if stored then s.(key := key, clients := s.clients[c := client.(token := client.trying, trying := None)]) else s
    case Release =>
      if client.token.None? then s
      else s.(key := ReleaseScript(s.key, s.now, client.token.value).0,
          clients := s.clients[c := client.(token := None)])
    case Extend(ms, replace) =>
      if client.token.None? || client.timeout.None? then s
      else s.(key := ExtendScript(s.key, s.now, client.token.value, ms, replace).0)
    case Reacquire =>
      if client.token.None? || client.timeout.None? then s
      else s.(key := ReacquireScript(s.key, s.now, client.token.value, client.timeout.value).0)
  }

  predicate Next(s: State, step: (Id, Action), s': State) {
    Enabled(s, step.0, step.1) && s' == Step(s, step.0, step.1)
  }

  ghost predicate Trace(states: seq<State>, steps: seq<(Id, Action)>) {
    && |states| == |steps| + 1
    && forall i :: 0 <= i < |steps| ==> Next(states[i], steps[i], states[i + 1])
  }

  predicate Initial(s: State) {
    s.key == None && forall c :: c in s.clients ==> s.clients[c].token == None && s.clients[c].trying == None
  }

  /** Whether the client's token is the one stored. */
  predicate Holds(s: State, c: Id) {
    c in s.clients && s.clients[c].token.Some? && Live(s.key, s.now).Some?
        && Live(s.key, s.now).value.token == s.clients[c].token.value
  }

  function Tokens(client: Client): set<Token> {
    (if client.token.Some? then {client.token.value} else {}) +
        (if client.trying.Some? then {client.trying.value} else {})
  }

  ghost predicate Apart(clients: map<Id, Client>, used: set<Token>) {
    && (forall c :: c in clients ==> Tokens(clients[c]) <= used)
    && (forall c, d :: c in clients && d in clients && c != d ==> Tokens(clients[c]) !! Tokens(clients[d]))
  }

  /** No token is in two hands, and what is stored or was held is not being stored again. */
  ghost predicate Distinct(s: State) {
    && Apart(s.clients, s.used)
    && (forall c :: c in s.clients && s.clients[c].token.Some? ==> s.clients[c].token != s.clients[c].trying)
    && (s.key.Some? ==> s.key.value.token in s.used && forall c :: c in s.clients ==>
        s.clients[c].trying != Some(s.key.value.token))
  }

  lemma {:induction false} TriesDiffer(clients: map<Id, Client>, used: set<Token>, c: Id, d: Id)
    requires Apart(clients, used) && c in clients && d in clients && c != d && clients[c].trying.Some?
    ensures clients[c].trying != clients[d].trying
  {
  }

  lemma {:induction false} TokenIsUsed(clients: map<Id, Client>, used: set<Token>, c: Id)
    requires Apart(clients, used) && c in clients
    ensures clients[c].token.Some? ==> clients[c].token.value in used
  {
  }

  lemma {:induction false} TryIsUsed(clients: map<Id, Client>, used: set<Token>, c: Id)
    requires Apart(clients, used) && c in clients && clients[c].trying.Some?
    ensures clients[c].trying.value in used
  {
  }

  lemma {:induction false} StepStaysApart(s: State, c: Id, a: Action)
    requires Apart(s.clients, s.used) && Enabled(s, c, a)
    ensures Apart(Step(s, c, a).clients, Step(s, c, a).used)
    ensures forall d :: d in s.clients && d != c ==> Step(s, c, a).clients[d] == s.clients[d]
  {
  }

  lemma {:induction false} StepKeepsDistinct(s: State, c: Id, a: Action)
    requires Distinct(s) && Enabled(s, c, a)
    ensures Distinct(Step(s, c, a))
  {
    hide Apart, Tokens;
    StepStaysApart(s, c, a);
    if a.Try? {
      TryIsUsed(s.clients, s.used, c);
      forall d | d in s.clients && d != c ensures s.clients[d].trying != s.clients[c].trying {
        TriesDiffer(s.clients, s.used, c, d);
      }
    }
    if a.Begin? {
      TokenIsUsed(s.clients, s.used, c);
    }
  }

  lemma {:induction false} RunKeepsDistinct(states: seq<State>, steps: seq<(Id, Action)>, n: nat)
    requires Trace(states, steps) && Distinct(states[0]) && n <= |steps|
    ensures Distinct(states[n])
  {
    if n > 0 {
      RunKeepsDistinct(states, steps, n - 1);
      assert Next(states[n - 1], steps[n - 1], states[n]);
      StepKeepsDistinct(states[n - 1], steps[n - 1].0, steps[n - 1].1);
    }
  }

  /** Mutual exclusion over all runs: at most one client's token is the stored one. */
  lemma {:induction false} AtMostOneHolder(states: seq<State>, steps: seq<(Id, Action)>, c: Id, d: Id)
    requires Trace(states, steps) && Initial(states[0])
    requires Holds(states[|steps|], c) && Holds(states[|steps|], d)
    ensures c == d
  {
    RunKeepsDistinct(states, steps, |steps|);
  }

  // ---------------------------------------------------------------- until the lease expires

  predicate Unexpired(expiry: Option<int>, now: int) {
    expiry.Some? ==> now < expiry.value
  }

  /** Nothing another client does, not even a late release, touches a lease that has not expired. */
  lemma {:induction false} OthersChangeNothing(s: State, d: Id, a: Action, c: Id)
    requires Distinct(s) && Enabled(s, d, a) && Holds(s, c)
    requires d != c || a.Tick?
    requires a.Tick? ==> Unexpired(s.key.value.expiry, s.now + a.ms)
    ensures Step(s, d, a).key == s.key && Holds(Step(s, d, a), c)
  {
  }

  lemma {:induction false} LeaseIsSafe(states: seq<State>, steps: seq<(Id, Action)>, c: Id, n: nat)
    requires Trace(states, steps) && Distinct(states[0]) && Holds(states[0], c) && n <= |steps|
    requires forall i :: 0 <= i < |steps| ==> steps[i].0 != c || steps[i].1.Tick?
    requires forall i :: 0 <= i <= |steps| ==> Unexpired(states[0].key.value.expiry, states[i].now)
    ensures states[n].key == states[0].key && Holds(states[n], c)
  {
    if n > 0 {
      LeaseIsSafe(states, steps, c, n - 1);
      RunKeepsDistinct(states, steps, n - 1);
      var (d, a) := steps[n - 1];
      assert Next(states[n - 1], steps[n - 1], states[n]);
      OthersChangeNothing(states[n - 1], d, a, c);
    }
  }

  // ---------------------------------------------------------------- the lease's length

  /** The sum of what a client's additive extensions ask for. */
  function Extensions(steps: seq<(Id, Action)>, c: Id): int {
    if steps == [] then 0
    else
      var (d, a) := steps[|steps| - 1];
      Extensions(steps[..|steps| - 1], c) + if d == c && a.Extend? && !a.replace then a.additional else 0
  }

  predicate Stored(s: State, token: Token) {
    Live(s.key, s.now).Some? && Live(s.key, s.now).value.token == token
  }

  /** A token that is no longer stored is never stored again. */
  lemma {:induction false} GoneForGood(s: State, c: Id, a: Action, token: Token)
    requires Distinct(s) && Enabled(s, c, a) && token in s.used && !Stored(s, token)
    requires forall d :: d in s.clients ==> s.clients[d].trying != Some(token)
    ensures !Stored(Step(s, c, a), token)
    ensures forall d :: d in s.clients ==> Step(s, c, a).clients[d].trying != Some(token)
  {
  }

  lemma {:induction false} GoneForGoodInRuns(states: seq<State>, steps: seq<(Id, Action)>, token: Token, m: nat, n: nat)
    requires Trace(states, steps) && Distinct(states[0]) && m <= n <= |steps| && token in states[0].used
    requires forall d :: d in states[0].clients ==> states[0].clients[d].trying != Some(token)
    ensures Stored(states[n], token) ==> Stored(states[m], token)
    ensures token in states[n].used && forall d :: d in states[n].clients ==> states[n].clients[d].trying != Some(token)
    decreases n, n - m
  {
    if n > 0 {
      var p := n - 1;
      GoneForGoodInRuns(states, steps, token, if m <= p then m else p, p);
      RunKeepsDistinct(states, steps, p);
      assert Next(states[p], steps[p], states[n]);
      if !Stored(states[p], token) {
        GoneForGood(states[p], steps[p].0, steps[p].1, token);
      }
    }
  }

  /** What the holder's own step makes of a lease that outlives it. */
  lemma {:induction false} OwnStep(s: State, d: Id, a: Action, c: Id)
    requires Distinct(s) && Enabled(s, d, a) && Holds(s, c) && s.key.value.expiry.Some? && s.clients[c].timeout.Some?
    requires Stored(Step(s, d, a), s.key.value.token)
    requires d == c ==> !a.Reacquire? && (a.Extend? ==> !a.replace)
    ensures Holds(Step(s, d, a), c) && Step(s, d, a).clients[c].timeout == s.clients[c].timeout
    ensures Step(s, d, a).key.value.expiry ==
      Some(s.key.value.expiry.value + if d == c && a.Extend? then a.additional else 0)
  {
  }

  /**
   Whenever its extensions were asked for, a lease that still stands expires
   at its first expiry plus the sum of all of them.
   */
  lemma {:induction false} ExtensionsTelescope(states: seq<State>, steps: seq<(Id, Action)>, c: Id, n: nat)
    requires Trace(states, steps) && Distinct(states[0]) && Holds(states[0], c) && n <= |steps|
    requires states[0].key.value.expiry.Some? && states[0].clients[c].timeout.Some?
    requires forall i :: 0 <= i < |steps| && steps[i].0 == c ==>
        !steps[i].1.Reacquire? && (steps[i].1.Extend? ==> !steps[i].1.replace)
    requires Stored(states[n], states[0].key.value.token)
    ensures Holds(states[n], c) && states[n].clients[c].timeout.Some?
    ensures states[n].key.value.token == states[0].key.value.token
    ensures states[n].key.value.expiry == Some(states[0].key.value.expiry.value + Extensions(steps[..n], c))
  {
    if n > 0 {
      var p := n - 1;
      assert Next(states[p], steps[p], states[n]);
      GoneForGoodInRuns(states, steps, states[0].key.value.token, p, n);
      ExtensionsTelescope(states, steps, c, p);
      RunKeepsDistinct(states, steps, p);
      OwnStep(states[p], steps[p].0, steps[p].1, c);
      assert steps[..n][..p] == steps[..p];
    }
  }

  /** What a step makes of the expiry of the client's lease: its own extension, or its own renewal. */
  function ExpiryNext(before: Option<int>, s: State, step: (Id, Action), c: Id): Option<int> {
    if step.0 != c || c !in s.clients || s.clients[c].timeout.None? then before
    else
      match step.1
      case Extend(ms, replace) =>
        if before.None? then None else Some(ms + if replace then s.now else before.value)
      case Reacquire => Some(s.now + s.clients[c].timeout.value)
      case _ => before
  }

  function ExpiryAfter(first: Option<int>, states: seq<State>, steps: seq<(Id, Action)>, c: Id): Option<int>
    requires |states| > |steps|
  {
    if steps == [] then first
    else
      var n := |steps| - 1;
      ExpiryNext(ExpiryAfter(first, states, steps[..n], c), states[n], steps[n], c)
  }

  /** What any step makes of a lease that outlives it. */
  lemma {:induction false} AnyStep(s: State, d: Id, a: Action, c: Id)
    requires Distinct(s) && Enabled(s, d, a) && Holds(s, c) && Stored(Step(s, d, a), s.key.value.token)
    ensures Holds(Step(s, d, a), c) && Step(s, d, a).clients[c].timeout == s.clients[c].timeout
    ensures Step(s, d, a).key.value == s.key.value.(expiry := ExpiryNext(s.key.value.expiry, s, (d, a), c))
  {
  }

  /** In any run, a lease that still stands expires when its holder's extensions and renewals say. */
  lemma {:induction false} LeaseExpiry(states: seq<State>, steps: seq<(Id, Action)>, c: Id, n: nat)
    requires Trace(states, steps) && Distinct(states[0]) && Holds(states[0], c) && n <= |steps|
    requires Stored(states[n], states[0].key.value.token)
    ensures Holds(states[n], c) && states[n].key.value.token == states[0].key.value.token
    ensures states[n].key.value.expiry == ExpiryAfter(states[0].key.value.expiry, states, steps[..n], c)
  {
    if n > 0 {
      var p := n - 1;
      assert Next(states[p], steps[p], states[n]);
      GoneForGoodInRuns(states, steps, states[0].key.value.token, p, n);
      LeaseExpiry(states, steps, c, p);
      RunKeepsDistinct(states, steps, p);
      AnyStep(states[p], steps[p].0, steps[p].1, c);
      assert steps[..n][..p] == steps[..p];
    }
  }

  /**
   Whoever releases, the key changes exactly when it was the holder, and then it is gone at once, whether or not
   the lease would ever have expired.
   */
  lemma {:induction false} ReleaseFreesExactly(states: seq<State>, steps: seq<(Id, Action)>, c: Id, n: nat)
    requires Trace(states, steps) && n < |steps| && steps[n] == (c, Action.Release)
    ensures states[n + 1].key == if Holds(states[n], c) then None else states[n].key
    ensures states[n + 1].clients[c].token == None && !Holds(states[n + 1], c)
  {
    assert Next(states[n], steps[n], states[n + 1]);
  }

  /** A try takes the lock exactly when nothing that has not expired is stored, and no negative time is asked for. */
  lemma {:induction false} TryTakesExactly(s: State, c: Id)
    requires Enabled(s, c, Try)
    ensures var s', client := Step(s, c, Try), s.clients[c];
      if (s.key.None? || !Unexpired(s.key.value.expiry, s.now)) && (client.timeout.Some? ==> client.timeout.value >= 0)
      then Holds(s', c) && s'.clients[c].token == client.trying && s'.key.value.token == client.trying.value
      else s' == s
  {
  }

  /** From the acquisition on: acquire time, plus timeout, plus every extension. */
  lemma {:induction false} LeaseLength(states: seq<State>, steps: seq<(Id, Action)>, c: Id)
    requires Trace(states, steps) && Distinct(states[0]) && steps != [] && steps[0] == (c, Try)
    requires Enabled(states[0], c, Try)
    requires Live(states[0].key, states[0].now).None?
    requires states[0].clients[c].timeout.Some? && states[0].clients[c].timeout.value > 0
    requires forall i :: 0 < i < |steps| && steps[i].0 == c ==>
        !steps[i].1.Reacquire? && (steps[i].1.Extend? ==> !steps[i].1.replace)
    requires Stored(states[|steps|], states[0].clients[c].trying.value)
    ensures states[|steps|].key.value.expiry ==
      Some(states[0].now + states[0].clients[c].timeout.value + Extensions(steps[1..], c))
  {
    var later, rest := states[1..], steps[1..];
    assert Next(states[0], steps[0], states[1]);
    StepKeepsDistinct(states[0], c, Try);
    forall i | 0 <= i < |rest| ensures Next(later[i], rest[i], later[i + 1]) {
      assert Next(states[i + 1], steps[i + 1], states[i + 2]);
    }
    assert forall i :: 0 <= i < |rest| ==> rest[i] == steps[i + 1];
    assert rest[..|rest|] == rest;
    ExtensionsTelescope(later, rest, c, |rest|);
  }

  // ---------------------------------------------------------------- one Lock object

  datatype Outcome = Done | NotDone | LockError | LockNotOwnedError | ResponseError

  /** The server, its clock, and what others leave in the key each time this client sleeps. */
  class Server {
    var now: int
    var key: Option<Lease>
    var others: seq<Option<Lease>>

    constructor (now: int, key: Option<Lease>, others: seq<Option<Lease>>)
      ensures this.now == now && this.key == key && this.others == others
    {
      this.now, this.key, this.others := now, key, others;
    }

    method Sleep(ms: int)
      modifies this
      ensures now == old(now) + ms
      ensures key == (if old(others) == [] then old(key) else old(others)[0])
      ensures others == (if old(others) == [] then [] else old(others)[1..])
    {
      now := now + ms;
      if others != [] {
        key, others := others[0], others[1..];
      }
    }
  }

  /** The key as the n-th attempt finds it. */
  function Seen(key: Option<Lease>, others: seq<Option<Lease>>, n: nat): Option<Lease>
    decreases n
  {
    if n == 0 then key
    else if others == [] then Seen(key, [], n - 1)
    else Seen(others[0], others[1..], n - 1)
  }

  lemma {:induction false} SeenNext(key: Option<Lease>, others: seq<Option<Lease>>, n: nat)
    ensures n < |others| ==> Seen(key, others, n + 1) == others[n]
    ensures n >= |others| ==> Seen(key, others, n + 1) == Seen(key, others, n)
    decreases n
  {
    if n > 0 {
      if others == [] {
        SeenNext(key, [], n - 1);
      } else {
        SeenNext(others[0], others[1..], n - 1);
      }
    }
  }

  /** Whether the n-th attempt, `sleep` after the one before, finds the lock free. */
  predicate FreeAt(start: int, sleep: int, key: Option<Lease>, others: seq<Option<Lease>>, n: nat) {
    var seen := Seen(key, others, n);
    seen.None? || !Unexpired(seen.value.expiry, start + n * sleep)
  }

  class Lock {
    const server: Server
    const timeout: Option<int>
    var token: Option<Token>

    constructor (server: Server, timeout: Option<int>)
      ensures this.server == server && this.timeout == timeout && token == None
    {
      this.server, this.timeout, token := server, timeout, None;
    }

    /** The object as the one client of the state machine. */
    function Alone(): State
      reads this, server
    {
      State(server.now, server.key, map[0 := Client(timeout, token, None)], {})
    }

    method DoAcquire(newToken: Token) returns (outcome: Outcome)
      modifies server
      ensures server.now == old(server.now) && server.others == old(server.others)
      ensures var px := Px(timeout);
        if px.Some? && px.value <= 0 then outcome == ResponseError && server.key == old(server.key)
        else
          && outcome == (if Live(old(server.key), server.now).None? then Done else NotDone)
          && server.key == SetNx(old(server.key), server.now, newToken, px).0
    {
      var px := if timeout.Some? && timeout.value != 0 then timeout else None;
      if px.Some? && px.value <= 0 {
        return ResponseError;
      }
      var (key, stored) := SetNx(server.key, server.now, newToken, px);
      server.key := key;
      return if stored then Done else NotDone;
    }

    /**
     acquire: the first attempt that finds the lock free takes it, and no attempt is made later than
     the blocking timeout allows. `n` is the number of sleeps; `limit` bounds them, without which the call
     would wait for ever.
     */
    method Acquire(sleep: nat, blocking: bool, blockingTimeout: Option<int>, newToken: Token, ghost limit: nat)
      returns (outcome: Outcome, ghost n: nat)
      requires blocking ==>
        || FreeAt(server.now, sleep, server.key, server.others, limit)
        || (blockingTimeout.Some? && (limit + 1) * sleep > blockingTimeout.value)
      modifies this, server
      ensures server.now == old(server.now) + n * sleep && (!blocking ==> n == 0)
      ensures outcome == ResponseError <==> Px(timeout).Some? && Px(timeout).value <= 0
      ensures outcome == ResponseError ==> n == 0 && server.key == old(server.key)
      ensures outcome in {Done, NotDone, ResponseError}
      ensures forall i :: 0 <= i < n ==> !FreeAt(old(server.now), sleep, old(server.key), old(server.others), i)
      ensures n > 0 && blockingTimeout.Some? ==> n * sleep <= blockingTimeout.value
      ensures outcome == Done ==>
        && FreeAt(old(server.now), sleep, old(server.key), old(server.others), n)
        && token == Some(newToken)
        && server.key == Some(Lease(newToken, if Px(timeout).Some? then Some(server.now + Px(timeout).value) else None))
      ensures outcome == NotDone ==>
        && !FreeAt(old(server.now), sleep, old(server.key), old(server.others), n)
        && server.key == Seen(old(server.key), old(server.others), n)
        && (blocking ==> blockingTimeout.Some? && (n + 1) * sleep > blockingTimeout.value)
      ensures outcome != Done ==> token == old(token)
    {
      n := 0;
      var stopTryingAt := if blockingTimeout.Some? then Some(server.now + blockingTimeout.value) else None;
      while true
        invariant server.now == old(server.now) + n * sleep && n <= limit
        invariant !blocking ==> n == 0
        invariant token == old(token) && server.key == Seen(old(server.key), old(server.others), n)
        invariant server.others == if n <= |old(server.others)| then old(server.others)[n..] else []
        invariant forall i :: 0 <= i < n ==> !FreeAt(old(server.now), sleep, old(server.key), old(server.others), i)
        invariant n > 0 && blockingTimeout.Some? ==> n * sleep <= blockingTimeout.value
        invariant n > 0 ==> !(Px(timeout).Some? && Px(timeout).value <= 0)
        decreases limit - n
      {
        outcome := DoAcquire(newToken);
        if outcome == Done {
          token := Some(newToken);
          return;
        }
        if outcome == ResponseError || !blocking {
          return;
        }
        var nextTryAt := server.now + sleep;
        assert (n + 1) * sleep == n * sleep + sleep;
        if stopTryingAt.Some? && nextTryAt > stopTryingAt.value {
          return;
        }
        assert n < limit;
        SeenNext(old(server.key), old(server.others), n);
        server.Sleep(sleep);
        n := n + 1;
      }
    }

    method Locked() returns (locked: bool)
      ensures locked <==> server.key.Some? && Unexpired(server.key.value.expiry, server.now)
    {
      return Live(server.key, server.now) != None;
    }

    /** The key holds this object's token, and the lease has not expired. */
    predicate Owns()
      reads this, server
    {
      && token.Some? && server.key.Some? && server.key.value.token == token.value
      && Unexpired(server.key.value.expiry, server.now)
    }

    method Owned() returns (owned: bool)
      ensures owned <==> Owns()
    {
      var storedToken := Live(server.key, server.now);
      return token.Some? && storedToken.Some? && storedToken.value.token == token.value;
    }

    /** The token is forgotten before the script runs, so a second release never reaches the server. */
    method Release() returns (outcome: Outcome)
      modifies this, server
      ensures Alone() == Step(old(Alone()), 0, Action.Release) && server.others == old(server.others)
      ensures outcome == if old(token).None? then LockError else if old(Owns()) then Done else LockNotOwnedError
      ensures server.key == if outcome == Done then None else old(server.key)
      ensures token == None && server.now == old(server.now)
    {
      if token.None? {
        return LockError;
      }
      var expected := token.value;
      token := None;
      var (key, released) := ReleaseScript(server.key, server.now, expected);
      server.key := key;
      return if released then Done else LockNotOwnedError;
    }

    method Extend(additionalTime: int, replaceTtl: bool) returns (outcome: Outcome)
      modifies server
      ensures Alone() == Step(old(Alone()), 0, Action.Extend(additionalTime, replaceTtl))
          && server.others == old(server.others)
      ensures outcome ==
        if token.None? || timeout.None? then LockError
        else if old(Owns()) && old(server.key).value.expiry.Some? then Done
        else LockNotOwnedError
      ensures outcome != Done ==> server.key == old(server.key)
      ensures outcome == Done ==>
        var left := additionalTime + if replaceTtl then 0 else old(server.key).value.expiry.value - server.now;
        server.key == if left > 0 then Some(Lease(token.value, Some(server.now + left))) else None
      ensures server.now == old(server.now)
    {
      if token.None? || timeout.None? {
        return LockError;
      }
      var (key, extended) := ExtendScript(server.key, server.now, token.value, additionalTime, replaceTtl);
      server.key := key;
      return if extended then Done else LockNotOwnedError;
    }

    method Reacquire() returns (outcome: Outcome)
      modifies server
      ensures Alone() == Step(old(Alone()), 0, Action.Reacquire) && server.others == old(server.others)
      ensures outcome ==
        if token.None? || timeout.None? then LockError else if old(Owns()) then Done else LockNotOwnedError
      ensures outcome != Done ==> server.key == old(server.key)
      ensures outcome == Done ==>
        server.key == if timeout.value > 0 then Some(Lease(token.value, Some(server.now + timeout.value))) else None
      ensures server.now == old(server.now)
    {
      if token.None? || timeout.None? {
        return LockError;
      }
      var (key, reacquired) := ReacquireScript(server.key, server.now, token.value, timeout.value);
      server.key := key;
      return if reacquired then Done else LockNotOwnedError;
    }
  }
}
