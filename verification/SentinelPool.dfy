/** The Sentinel-backed pool of connections to a master, across failovers. */
module SentinelPools {
  import opened Helpers

  datatype Address = Address(host: string, port: nat)

  /** What one sentinel answers about the service. */
  datatype Answer =
    | Unreachable
    | Unknown
    | Master(address: Address, isMaster: bool, isSdown: bool, isOdown: bool, otherSentinels: nat)

  type SentinelId = nat

  /** Where a connection points before it was ever told an address. */
  const DEFAULT := Address("localhost", 6379)

  /** The sentinels in the order in which they are asked. */
  class Sentinel {
    const minOtherSentinels: nat
    const forceMasterIp: Option<string>
    var sentinels: seq<SentinelId>

    constructor (sentinels: seq<SentinelId>, minOtherSentinels: nat, forceMasterIp: Option<string>)
      ensures this.sentinels == sentinels && this.minOtherSentinels == minOtherSentinels
          && this.forceMasterIp == forceMasterIp
    {
      this.sentinels, this.minOtherSentinels, this.forceMasterIp := sentinels, minOtherSentinels, forceMasterIp;
    }

    /** check_master_state */
    predicate Trusted(answer: Answer) {
      answer.Master? && answer.isMaster && !answer.isSdown && !answer.isOdown
          && answer.otherSentinels >= minOtherSentinels
    }

    /** An answer is trusted that names a master which no one thinks down, and that enough others could confirm. */
    lemma {:induction false} TrustedExactly(answer: Answer)
      ensures Trusted(answer) <==>
        exists found, others: nat :: others >= minOtherSentinels && answer == Master(found, true, false, false, others)
    {
      if Trusted(answer) {
        assert answer == Master(answer.address, true, false, false, answer.otherSentinels);
      }
    }

    lemma {:induction false} TrustedMaster(answer: Answer)
      requires Trusted(answer)
      ensures exists found: Address, others: nat ::
        && others >= minOtherSentinels
        && answer == Master(found, true, false, false, others) && AddressOf(answer).port == found.port
        && AddressOf(answer).host == if forceMasterIp.Some? then forceMasterIp.value else found.host
    {
      assert answer == Master(answer.address, true, false, false, answer.otherSentinels);
    }

    function AddressOf(answer: Answer): Address
      requires answer.Master?
    {
      if forceMasterIp.Some? then answer.address.(host := forceMasterIp.value) else answer.address
    }

    /** Some sentinel gives a trusted answer. */
    ghost predicate Answers(ask: SentinelId -> Answer)
      reads this
    {
      exists id :: id in sentinels && Trusted(ask(id))
    }

    /**
     The first sentinel with a trusted answer decides, and changes places with the one at the front,
     so that the same answers are found at once the next time. None stands for MasterNotFoundError.
     */
    method DiscoverMaster(ask: SentinelId -> Answer) returns (address: Option<Address>)
      modifies this
      ensures address.None? <==> forall i :: 0 <= i < |old(sentinels)| ==> !Trusted(ask(old(sentinels)[i]))
      ensures address.Some? <==> old(Answers(ask))
      ensures forall other: SentinelId -> Answer :: Answers(other) == old(Answers(other))
      ensures address.None? ==> sentinels == old(sentinels)
      ensures address.Some? ==>
        exists n :: 0 <= n < |old(sentinels)| && Trusted(ask(old(sentinels)[n])) &&
          (forall i :: 0 <= i < n ==> !Trusted(ask(old(sentinels)[i]))) &&
          address.value == AddressOf(ask(old(sentinels)[n])) &&
          sentinels == old(sentinels)[0 := old(sentinels)[n]][n := old(sentinels)[0]]
      ensures address.Some? ==>
        sentinels != [] && Trusted(ask(sentinels[0])) && address.value == AddressOf(ask(sentinels[0]))
      ensures address.Some? ==>
        exists found: Address, others: nat ::
          && others >= minOtherSentinels
          && ask(sentinels[0]) == Master(found, true, false, false, others) && address.value.port == found.port
          && address.value.host == if forceMasterIp.Some? then forceMasterIp.value else found.host
      ensures multiset(sentinels) == multiset(old(sentinels))
    {
      hide Trusted, AddressOf;
      for i := 0 to |sentinels|
        invariant sentinels == old(sentinels)
        invariant forall j :: 0 <= j < i ==> !Trusted(ask(sentinels[j]))
      {
        var answer := ask(sentinels[i]);
        if Trusted(answer) {
          sentinels := sentinels[0 := sentinels[i]][i := sentinels[0]];
          Swapped(old(sentinels), i);
          TrustedMaster(answer);
          return Some(AddressOf(answer));
        }
      }
      return None;
    }
  }

  lemma {:induction false} Swapped(ids: seq<SentinelId>, i: nat)
    requires i < |ids|
    ensures var swapped := ids[0 := ids[i]][i := ids[0]]; forall id :: id in swapped <==> id in ids
  {
    var swapped := ids[0 := ids[i]][i := ids[0]];
    assert swapped[0] == ids[i] && swapped[i] == ids[0];
    forall id | id in ids ensures id in swapped {
      var k :| 0 <= k < |ids| && ids[k] == id;
      assert k != 0 && k != i ==> swapped[k] == id;
    }
  }

  class Connection {
    var address: Address
    var connected: bool

    constructor ()
      ensures address == DEFAULT && !connected
    {
      address, connected := DEFAULT, false;
    }
  }

  /** What connecting meets: no socket, a socket that fails the check, or success. */
  datatype Attempt = NoSocket | PingFailed | Success

  datatype Outcome = Ready | MasterNotFound | NotConnected | TooManyConnections

  /** How connecting ends, given whether some sentinel knows a master. */
  function Connected(already: bool, found: bool, attempt: Attempt): Outcome {
    if already then Ready
    else if !found then MasterNotFound
    else if attempt == Success then Ready
    else NotConnected
  }

  /** How making a connection ready ends: one that has data left over is connected once more. */
  function Prepared(first: Outcome, hasData: bool, again: Outcome, stillHasData: bool): Outcome {
    if first != Ready || !hasData then first
    else if again == Ready && stillHasData then NotConnected
    else again
  }

  // ---------------------------------------------------------------- any interleaving of threads

  datatype Link = Link(address: Address, connected: bool)

  /**
   The pool and its users. `disconnecting` counts the threads that have assigned a master's address and not yet
   disconnected the idle connections; `releasing` is the connection whose release has been decided
   under the pool's lock and not yet carried out.
   */
  datatype State<C(==)> = State(
    master: Option<Address>, idle: seq<C>, inUse: set<C>, links: map<C, Link>, disconnecting: nat, releasing: Option<C>)

  /** A thread connects to an address it was told some time ago, by then perhaps no longer the master's. */
  datatype Step<C(==)> =
    | Assign(address: Address)
    | DisconnectIdle
    | CheckOut
    | Create(created: C)
    | ConnectTo(c: C, told: Address, succeeded: bool)
    | Lose(lost: C)
    | DecideRelease(released: C)
    | MakeIdle

  function Disconnected<C>(links: map<C, Link>, idle: seq<C>): map<C, Link> {
    map c | c in links :: if c in idle then links[c].(connected := false) else links[c]
  }

  predicate Enabled<C>(s: State<C>, step: Step<C>) {
    match step
    case Assign(_) => true
    case DisconnectIdle => s.disconnecting > 0 && s.releasing.None?
    case CheckOut => s.idle != [] && s.releasing.None?
    case Create(c) => c !in s.links && s.releasing.None?
    case ConnectTo(c, _, _) => c in s.inUse && c in s.links && !s.links[c].connected
    case Lose(c) => c in s.inUse && c in s.links
    case DecideRelease(c) => c in s.inUse && c in s.links && s.releasing.None?
    case MakeIdle => s.releasing.Some?
  }

  function Do<C>(s: State<C>, step: Step<C>): State<C>
    requires Enabled(s, step)
  {
    match step
    case Assign(address) => s.(master := Some(address), disconnecting := s.disconnecting + 1)
    case DisconnectIdle => s.(links := Disconnected(s.links, s.idle), disconnecting := s.disconnecting - 1)
    case CheckOut => s.(idle := s.idle[..|s.idle| - 1], inUse := s.inUse + {s.idle[|s.idle| - 1]})
    case Create(c) => s.(inUse := s.inUse + {c}, links := s.links[c := Link(DEFAULT, false)])
    case ConnectTo(c, address, succeeded) => s.(links := s.links[c := Link(address, succeeded)])
    case Lose(c) => s.(links := s.links[c := s.links[c].(connected := false)])
    case DecideRelease(c) =>
      if s.master == Some(s.links[c].address) then s.(inUse := s.inUse - {c}, releasing := Some(c))
      else s.(inUse := s.inUse - {c}, links := s.links - {c})
    case MakeIdle => s.(idle := s.idle + [s.releasing.value], releasing := None)
  }

  /** While no thread is about to disconnect them, the idle connections that are connected point at the master. */
  ghost predicate Safe<C(!new)>(s: State<C>) {
    && Distinct(s.idle) && (forall c :: c in s.idle ==> c !in s.inUse && c in s.links && s.releasing != Some(c))
    && (forall c :: c in s.inUse ==> c in s.links && s.releasing != Some(c))
    && (s.releasing.Some? ==> s.releasing.value in s.links)
    && (s.disconnecting == 0 ==>
          forall c :: (c in s.idle || s.releasing == Some(c)) && s.links[c].connected ==>
              s.master == Some(s.links[c].address))
  }

  lemma {:induction false} StepIsSafe<C(!new)>(s: State<C>, step: Step<C>)
    requires Safe(s) && Enabled(s, step)
    ensures Safe(Do(s, step))
  {
    var s' := Do(s, step);
    match step {
      case CheckOut =>
        assert s.idle[|s.idle| - 1] in s.idle;
        assert forall i :: 0 <= i < |s'.idle| ==> s'.idle[i] == s.idle[i];
      case _ =>
    }
  }

  ghost predicate Trace<C(!new)>(states: seq<State<C>>, steps: seq<Step<C>>) {
    && |states| == |steps| + 1 && states[0] == State(None, [], {}, map[], 0, None)
    && forall i :: 0 <= i < |steps| ==> Enabled(states[i], steps[i]) && states[i + 1] == Do(states[i], steps[i])
  }

  /**
   In every reachable state of any number of threads, an idle connection is connected to the current master
   alone, unless some thread has just assigned another one and is about to disconnect it.
   */
  lemma {:induction false} RunsAreSafe<C(!new)>(states: seq<State<C>>, steps: seq<Step<C>>, n: nat)
    requires Trace(states, steps) && n <= |steps|
    ensures Safe(states[n])
  {
    if n > 0 {
      RunsAreSafe(states, steps, n - 1);
      StepIsSafe(states[n - 1], steps[n - 1]);
    }
  }

  /**
   After a failover was noticed and dealt with, what is taken from the pool connected goes to the new master, until
   there is another.
   */
  lemma {:induction false} NoStaleConnectionHandedOut<C(!new)>(states: seq<State<C>>, steps: seq<Step<C>>, n: nat,
      m: nat, master: Address)
    requires Trace(states, steps) && n < m < |steps|
    requires steps[n] == Assign(master) && forall i :: n < i < m && steps[i].Assign? ==> steps[i].address == master
    requires steps[m] == CheckOut && states[m].disconnecting == 0
    ensures var idle := states[m].idle; idle != [] && idle[|idle| - 1] in states[m].links
    ensures var link := states[m].links[states[m].idle[|states[m].idle| - 1]]; link.connected ==> link.address == master
  {
    RunsAreSafe(states, steps, m);
    MasterStays(states, steps, n, m, master);
    assert Enabled(states[m], steps[m]);
    assert states[m].idle[|states[m].idle| - 1] in states[m].idle;
  }

  lemma {:induction false} MasterStays<C(!new)>(states: seq<State<C>>, steps: seq<Step<C>>, n: nat, m: nat,
      master: Address)
    requires Trace(states, steps) && n < m <= |steps|
    requires steps[n] == Assign(master) && forall i :: n < i < m && steps[i].Assign? ==> steps[i].address == master
    ensures states[m].master == Some(master)
  {
    assert states[m - 1 + 1] == Do(states[m - 1], steps[m - 1]);
    if n < m - 1 {
      MasterStays(states, steps, n, m - 1, master);
    }
  }

  /** The connections that a thread can take, now or when the release under way is carried out. */
  predicate Pooled<C(==)>(s: State<C>, c: C) {
    c in s.idle || s.releasing == Some(c)
  }

  /** What can be taken is connected to the current master or not at all. */
  ghost predicate Current<C(!new)>(s: State<C>) {
    forall c :: Pooled(s, c) && c in s.links && s.links[c].connected ==> s.master == Some(s.links[c].address)
  }

  /** Another master is assigned while connections to the former one are still open in the pool. */
  ghost predicate Strands<C(!new)>(s: State<C>, step: Step<C>) {
    step.Assign? && s.master != Some(step.address) &&
      exists c :: Pooled(s, c) && c in s.links && s.links[c].connected
  }

  lemma {:induction false} StepStaysCurrent<C(!new)>(s: State<C>, step: Step<C>)
    requires Safe(s) && Enabled(s, step) && Current(s)
    ensures Current(Do(s, step)) <==> !Strands(s, step)
  {
    var s' := Do(s, step);
    match step {
      case Assign(address) =>
        if c :| Pooled(s, c) && c in s.links && s.links[c].connected {
          assert Pooled(s', c) && s'.links[c].address == s.links[c].address;
        }
      case CheckOut =>
        assert forall i :: 0 <= i < |s'.idle| ==> s'.idle[i] == s.idle[i];
      case _ =>
    }
  }

  /**
   Over any run, no thread could ever take a connection that is still connected to a former master, exactly when
   no other master was ever assigned while the pool had an open connection: the disconnection comes too late.
   */
  lemma {:induction false} CurrentExactly<C(!new)>(states: seq<State<C>>, steps: seq<Step<C>>, n: nat)
    requires Trace(states, steps) && n <= |steps|
    ensures (forall i :: 0 <= i <= n ==> Current(states[i])) <==>
      (forall i :: 0 <= i < n ==> !Strands(states[i], steps[i]))
  {
    hide Safe, Enabled, Do, Current, Strands;
    if n == 0 {
      StartsCurrent(states, steps);
    } else {
      CurrentExactly(states, steps, n - 1);
      RunsAreSafe(states, steps, n - 1);
      assert Enabled(states[n - 1], steps[n - 1]) && states[n - 1 + 1] == Do(states[n - 1], steps[n - 1]);
      if Current(states[n - 1]) {
        StepStaysCurrent(states[n - 1], steps[n - 1]);
      }
    }
  }

  lemma {:induction false} StartsCurrent<C(!new)>(states: seq<State<C>>, steps: seq<Step<C>>)
    requires Trace(states, steps)
    ensures Current(states[0])
  {
  }

  class ConnectionPool {
    const sentinel: Sentinel
    const maxConnections: nat
    var masterAddress: Option<Address>
    var available: seq<Connection>
    var inUse: set<Connection>
    var created: nat
    /** How many connections were dropped on release. */
    ghost var dropped: nat
    /** The connections that are idle or in use. */
    ghost var members: set<Connection>

    constructor (sentinel: Sentinel, maxConnections: nat)
      ensures Valid() && available == [] && inUse == {} && created == dropped == 0 && masterAddress == None
      ensures this.sentinel == sentinel && this.maxConnections == maxConnections
    {
      this.sentinel, this.maxConnections := sentinel, maxConnections;
      masterAddress, available, inUse, created, dropped, members := None, [], {}, 0, 0, {};
    }

    /** An idle connection that is still connected points at the current master. */
    ghost predicate Valid()
      reads this, available
    {
      && Distinct(available) && (forall c :: c in available ==> c !in inUse && c in members) && inUse <= members
      && created == |available| + |inUse| + dropped && created <= maxConnections
      && forall c :: c in available && c.connected ==> masterAddress == Some(c.address)
    }

    ghost function Links(): map<Connection, Link>
      reads this, members
    {
      map c: Connection | c in members :: Link(c.address, c.connected)
    }

    /** The pool as the state machine sees it between the steps of its threads. */
    ghost function Snapshot(): State<Connection>
      reads this, members
    {
      State(masterAddress, available, inUse, Links(), 0, None)
    }

    /** disconnect(inuse_connections=False) */
    method DisconnectIdle()
      modifies available
      ensures forall c :: c in available ==> !c.connected && c.address == old(c.address)
    {
      for i := 0 to |available|
        invariant forall j :: 0 <= j < i ==> !available[j].connected
        invariant forall c :: c in available ==> c.address == old(c.address)
      {
        available[i].connected := false;
      }
    }

    /** Another master: its address is assigned, and every idle connection disconnected. */
    method NoteMaster(address: Address)
      requires Valid()
      modifies `masterAddress, available
      ensures Valid() && masterAddress == Some(address)
      ensures forall c :: c in available ==> !c.connected && c.address == old(c.address)
      ensures Snapshot() == Do(Do(old(Snapshot()), Assign(address)), Step.DisconnectIdle)
    {
      hide Distinct;
      ghost var before := Links();
      masterAddress := Some(address);
      DisconnectIdle();
      assert forall c :: c in before ==> Links()[c] == Disconnected(before, available)[c];
    }

    /** When the sentinels tell of another master, every idle connection is disconnected. */
    method GetMasterAddress(ask: SentinelId -> Answer) returns (address: Option<Address>)
      requires Valid()
      modifies `masterAddress, available, sentinel
      ensures Valid()
      ensures address.None? ==> masterAddress == old(masterAddress)
      ensures address.Some? ==> masterAddress == address
      ensures address.Some? <==> old(sentinel.Answers(ask))
      ensures forall other: SentinelId -> Answer :: sentinel.Answers(other) == old(sentinel.Answers(other))
      ensures forall c :: c in available ==> c.connected == (old(c.connected) && masterAddress == old(masterAddress))
      ensures forall c :: c in available ==> c.address == old(c.address)
      ensures masterAddress == old(masterAddress) ==> Snapshot() == old(Snapshot())
      ensures masterAddress != old(masterAddress) ==>
        masterAddress.Some? && Snapshot() == Do(Do(old(Snapshot()), Assign(masterAddress.value)), Step.DisconnectIdle)
    {
      hide Distinct, Links, Do;
      address := sentinel.DiscoverMaster(ask);
      assert Links() == old(Links());
      if address.Some? && masterAddress != address {
        NoteMaster(address.value);
      }
    }

    /** connect, by the holder of a connection: a lost one finds the master of the moment. */
    method Connect(c: Connection, ask: SentinelId -> Answer, attempt: Attempt) returns (outcome: Outcome)
      requires Valid() && c in inUse
      modifies `masterAddress, available, sentinel, c
      ensures Valid()
      ensures outcome == Connected(old(c.connected), old(sentinel.Answers(ask)), attempt)
      ensures forall other: SentinelId -> Answer :: sentinel.Answers(other) == old(sentinel.Answers(other))
      ensures old(c.connected) ==>
          outcome == Ready && c.connected && c.address == old(c.address) && masterAddress == old(masterAddress)
      ensures !old(c.connected) && outcome == Ready ==> c.connected && masterAddress == Some(c.address)
      ensures outcome == MasterNotFound ==>
          !c.connected && c.address == old(c.address) && masterAddress == old(masterAddress)
      ensures outcome == NotConnected ==> masterAddress == Some(c.address)
      ensures outcome != TooManyConnections
      ensures old(c.connected) || outcome == MasterNotFound ==> Snapshot() == old(Snapshot())
      ensures !old(c.connected) && outcome != MasterNotFound ==>
        var told := if masterAddress == old(masterAddress) then old(Snapshot())
          else Do(Do(old(Snapshot()), Assign(c.address)), Step.DisconnectIdle);
        Enabled(told, Step.ConnectTo(c, c.address, c.connected))
            && Snapshot() == Do(told, Step.ConnectTo(c, c.address, c.connected))
    {
      hide Distinct, Links, Do, Enabled;
      if c.connected {
        return Ready;
      }
      var address := GetMasterAddress(ask);
      if address == None {
        return MasterNotFound;
      }
      ConnectTo(c, address.value, attempt != NoSocket);
      return if attempt == Success then Ready else NotConnected;
    }

    /** connect_to: the address is taken over before the socket is there. */
    method ConnectTo(c: Connection, address: Address, succeeds: bool)
      requires Valid() && c in inUse && !c.connected
      modifies c
      ensures Valid() && c.address == address && c.connected == succeeds
      ensures Enabled(old(Snapshot()), Step.ConnectTo(c, address, succeeds))
      ensures Snapshot() == Do(old(Snapshot()), Step.ConnectTo(c, address, succeeds))
    {
      hide Distinct;
      c.address := address;
      c.connected := succeeds;
    }

    /** A connection in use is lost, or its server turns out to be a replica now. */
    method Disconnect(c: Connection)
      requires Valid() && c in inUse
      modifies c
      ensures Valid() && !c.connected && Enabled(old(Snapshot()), Lose(c)) && Snapshot() == Do(old(Snapshot()), Lose(c))
    {
      c.connected := false;
    }

    predicate OwnsConnection(c: Connection)
      reads this, c
    {
      masterAddress == Some(c.address)
    }

    /** A connection to another address than the master's is dropped for good, but stays counted as created. */
    method Release(c: Connection)
      requires Valid()
      modifies this, c
      ensures Valid() && masterAddress == old(masterAddress) && created == old(created) && inUse == old(inUse) - {c}
      ensures c !in old(inUse) ==>
          available == old(available) && c.connected == old(c.connected) && dropped == old(dropped)
      ensures c in old(inUse) && old(OwnsConnection(c)) ==>
        available == old(available) + [c] && c.connected == old(c.connected) && dropped == old(dropped)
      ensures c in old(inUse) && !old(OwnsConnection(c)) ==>
        available == old(available) && !c.connected && dropped == old(dropped) + 1
      ensures c in old(inUse) ==> Enabled(old(Snapshot()), DecideRelease(c))
      ensures c in old(inUse) ==>
        var decided := Do(old(Snapshot()), DecideRelease(c));
        Snapshot() == if decided.releasing.Some? then Do(decided, MakeIdle) else decided
    {
      if c !in inUse {
        return;
      }
      inUse := inUse - {c};
      if OwnsConnection(c) {
        available := available + [c];
      } else {
        c.connected := false;
        dropped, members := dropped + 1, members - {c};
      }
    }

    /** The idle connection released last. */
    method TakeIdle() returns (c: Connection)
      requires Valid() && available != []
      modifies this
      ensures Valid() && masterAddress == old(masterAddress) && dropped == old(dropped) && created == old(created)
      ensures inUse == old(inUse) + {c} && c !in old(inUse)
      ensures c == old(available)[|old(available)| - 1] && available == old(available)[..|old(available)| - 1]
      ensures c.connected ==> masterAddress == Some(c.address)
      ensures Enabled(old(Snapshot()), Step.CheckOut) && Snapshot() == Do(old(Snapshot()), Step.CheckOut)
    {
      c := available[|available| - 1];
      assert c in available;
      available := available[..|available| - 1];
      inUse := inUse + {c};
    }

    method MakeConnection() returns (c: Connection)
      requires Valid() && created < maxConnections
      modifies this
      ensures Valid() && masterAddress == old(masterAddress) && dropped == old(dropped) && created == old(created) + 1
      ensures fresh(c) && !c.connected && inUse == old(inUse) + {c} && available == old(available)
      ensures Enabled(old(Snapshot()), Create(c)) && Snapshot() == Do(old(Snapshot()), Create(c))
    {
      hide Distinct;
      c := new Connection();
      created, members := created + 1, members + {c};
      inUse := inUse + {c};
    }

    method CheckOut() returns (c: Connection)
      requires Valid() && (available == [] ==> created < maxConnections)
      modifies this
      ensures Valid() && masterAddress == old(masterAddress)
      ensures inUse == old(inUse) + {c} && c !in old(inUse)
      ensures if old(available) == [] then fresh(c) && !c.connected && available == []
              else c == old(available)[|old(available)| - 1] && available == old(available)[..|old(available)| - 1]
      ensures c.connected ==> masterAddress == Some(c.address)
    {
      hide Distinct, Links, Do, Enabled, Snapshot;
      if |available| > 0 {
        c := TakeIdle();
      } else {
        c := MakeConnection();
      }
    }

    /** Makes a connection ready: it connects, and one that has data left over connects again. */
    method Prepare(conn: Connection, ask: SentinelId -> Answer, attempt: Attempt, hasData: bool,
                   askAgain: SentinelId -> Answer, attemptAgain: Attempt, stillHasData: bool)
      returns (outcome: Outcome)
      requires Valid() && conn in inUse && (conn.connected ==> masterAddress == Some(conn.address))
      modifies `masterAddress, available, sentinel, conn
      ensures Valid() && outcome != TooManyConnections
      ensures outcome ==
        Prepared(Connected(old(conn.connected), old(sentinel.Answers(ask)), attempt), hasData,
                 Connected(false, old(sentinel.Answers(askAgain)), attemptAgain), stillHasData)
      ensures outcome == Ready ==> conn.connected && masterAddress == Some(conn.address)
    {
      hide Distinct, Links, Do, Enabled;
      outcome := Connect(conn, ask, attempt);
      if outcome == Ready && hasData {
        Disconnect(conn);
        outcome := Connect(conn, askAgain, attemptAgain);
        if outcome == Ready && stillHasData {
          outcome := NotConnected;
        }
      }
    }

    /**
     get_connection: what it hands out is connected to the master it knows of, whatever the sentinels
     say meanwhile, and a connection that fails goes through release.
     */
    method GetConnection(ask: SentinelId -> Answer, attempt: Attempt, hasData: bool,
                         askAgain: SentinelId -> Answer, attemptAgain: Attempt, stillHasData: bool)
      returns (outcome: Outcome, c: Option<Connection>)
      requires Valid()
      modifies this, available, sentinel
      ensures Valid()
      ensures outcome == Ready <==> c.Some?
      ensures outcome == Ready ==> inUse == old(inUse) + {c.value} && c.value !in old(inUse)
      ensures outcome == Ready ==> c.value.connected && masterAddress == Some(c.value.address)
      ensures outcome != Ready ==> inUse == old(inUse)
      ensures outcome == Ready ==>
        if old(available) == [] then fresh(c.value) else c.value == old(available)[|old(available)| - 1]
      ensures outcome != TooManyConnections ==>
        outcome ==
        Prepared(Connected(old(available != [] && available[|available| - 1].connected), old(sentinel.Answers(ask)),
                           attempt), hasData,
                 Connected(false, old(sentinel.Answers(askAgain)), attemptAgain), stillHasData)
      ensures outcome == TooManyConnections <==> old(available) == [] && old(created) == maxConnections
      ensures outcome == TooManyConnections ==> |inUse| + dropped == maxConnections
    {
      if |available| == 0 && created >= maxConnections {
        return TooManyConnections, None;
      }
      hide Distinct, Links, Do, Enabled, Snapshot;
      var conn := CheckOut();
      assert forall i :: 0 <= i < |available| ==> available[i] == old(available)[i];
      outcome := Prepare(conn, ask, attempt, hasData, askAgain, attemptAgain, stillHasData);
      if outcome != Ready {
        Release(conn);
        return outcome, None;
      }
      return Ready, Some(conn);
    }
  }
}
