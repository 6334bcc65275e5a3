/** Sending one command to a cluster through a slot table that may be stale: the redirection loop. */
module ClusterClient {
  import opened Helpers
  import opened ClusterNodes

  /** A command on the keys of one slot; `body` is everything else about it. */
  datatype Command = Command(slot: Slot, body: int)

  /**
   What a node answers. A slot's state is the list of commands it has executed, and the answer to a command
   is that list with the command at its end: any deterministic store and reply is a function of it.
   */
  datatype Reply =
    | Value(history: seq<Command>)
    | MovedTo(node: Name)
    | AskAt(node: Name)
    | TryAgain
    | ClusterDown
    | ConnectionLost

  datatype Sending = Sending(node: Name, command: Command, asking: bool, reply: Reply)

  datatype Failure = Down | Lost | TtlExhausted | UnknownNode

  datatype Result = Answer(history: seq<Command>) | Raised(failure: Failure)

  type Logs = map<Slot, seq<Command>>

  function LogOf(logs: Logs, s: Slot): seq<Command> {
    if s in logs then logs[s] else []
  }

  function Executed(logs: Logs, c: Command): Logs {
    logs[c.slot := LogOf(logs, c.slot) + [c]]
  }

  lemma {:induction false} ExecutedLog(logs: Logs, c: Command)
    ensures LogOf(Executed(logs, c), c.slot) == LogOf(logs, c.slot) + [c]
  {
  }

  /**
   The cluster. Owners are fixed: an owner executes a command, any other node answers MOVED and does nothing.
   Before that, `upsets` are answers that the network or a migration gives instead, one per command.
   */
  class Servers {
    const owner: Slot -> Name
    const view: seq<ClusterNodes.Answer>
    var logs: Logs
    var upsets: seq<Reply>
    var sent: seq<Sending>

    constructor (owner: Slot -> Name, view: seq<ClusterNodes.Answer>, upsets: seq<Reply>)
      ensures this.owner == owner && this.view == view && this.upsets == upsets && logs == map[] && sent == []
    {
      this.owner, this.view, this.upsets, logs, sent := owner, view, upsets, map[], [];
    }

    /** CLUSTER SLOTS, asked of the startup nodes, covers every slot and names its owner. */
    ghost predicate Truthful() {
      var claims := Processed(view, []);
      && (forall a, k :: 0 <= a < |view| && view[a].Answered? && 0 <= k < |view[a].sections| ==>
          view[a].sections[k].stop <= SLOTS)
      && Covers(claims) && Conflicts(claims) <= 5
      && (exists a :: 0 <= a < |view| && view[a].Answered?)
      && forall s: Slot :: claims[FirstClaim(claims, s).value].primary == owner(s)
    }

    /** No section lists a node twice. */
    ghost predicate Clean() {
      var claims := Processed(view, []);
      forall k :: 0 <= k < |claims| ==> Distinct(claims[k].Nodes())
    }

    predicate UpsetsOnly()
      reads this
    {
      forall i :: 0 <= i < |upsets| ==> !upsets[i].Value?
    }

    method Send(node: Name, command: Command, asking: bool) returns (reply: Reply)
      modifies this
      ensures sent == old(sent) + [Sending(node, command, asking, reply)]
      ensures old(upsets) != [] ==> reply == old(upsets)[0] && upsets == old(upsets)[1..] && logs == old(logs)
      ensures old(upsets) == [] ==> upsets == []
      ensures old(upsets) == [] && node == owner(command.slot) ==>
        logs == Executed(old(logs), command) && reply == Value(LogOf(logs, command.slot))
      ensures old(upsets) == [] && node != owner(command.slot) ==>
          logs == old(logs) && reply == MovedTo(owner(command.slot))
    {
      if upsets != [] {
        reply, upsets := upsets[0], upsets[1..];
      } else if node == owner(command.slot) {
        logs := Executed(logs, command);
        reply := Value(LogOf(logs, command.slot));
      } else {
        reply := MovedTo(owner(command.slot));
      }
      sent := sent + [Sending(node, command, asking, reply)];
    }
  }

  const REQUEST_TTL := 16
  const ERROR_RETRY_ATTEMPTS := 3

  /** Every `steps`-th MOVED reloads the table, unless that is switched off by zero. */
  predicate ReloadDue(steps: nat, count: nat) {
    steps != 0 && count % steps == 0
  }

  /** The replies after which the loop sends again. */
  predicate Redirects(reply: Reply) {
    reply.MovedTo? || reply.AskAt? || reply.TryAgain?
  }

  /** What one round of redirections begins with: the upsets to come, and the owner's answer behind them. */
  datatype Start = Start(
    first: Name, command: Command, owner: Name, history: seq<Command>, upsets: seq<Reply>, steps: nat, counter: nat)
  {
    /** The number of MOVEDs since the last reload that they caused. */
    function Counter(sends: seq<Sending>): nat {
      if sends == [] then counter
      else
        CounterNext(Counter(sends[..|sends| - 1]), sends[|sends| - 1].reply)
    }

    function CounterNext(before: nat, reply: Reply): nat {
      if !reply.MovedTo? then before else if ReloadDue(steps, before + 1) then 0 else before + 1
    }

    /**
     Where the next send goes: after ASK to the node it names, with ASKING; after TRYAGAIN to the same node; after
     MOVED to the node it names, or to the owner if the table was reloaded.
     */
    function Target(sends: seq<Sending>): Name {
      if sends == [] then first
      else
        TargetNext(sends[|sends| - 1].node, Counter(sends[..|sends| - 1]), sends[|sends| - 1].reply)
    }

    function TargetNext(asked: Name, before: nat, reply: Reply): Name {
      match reply
      case AskAt(node) => node
      case MovedTo(node) => if ReloadDue(steps, before + 1) then owner else node
      case _ => asked
    }

    function AnswerOf(node: Name, sent: nat): Reply {
      if sent < |upsets| then upsets[sent]
      else if node == owner then Value(history + [command])
      else MovedTo(owner)
    }

    /** Each send goes where the answer before it points, and no answer but a redirection is followed by a send. */
    predicate Follows(sends: seq<Sending>) {
      sends == [] ||
      (var init, s := sends[..|sends| - 1], sends[|sends| - 1];
       && Follows(init) && (init != [] ==> Redirects(init[|init| - 1].reply))
       && s == Sending(Target(init), command, init != [] && init[|init| - 1].reply.AskAt?,
                       AnswerOf(Target(init), |init|)))
    }

    /** The round that begins where this one was given up: the table has been reloaded. */
    function Again(sends: seq<Sending>): Start {
      Start(owner, command, owner, history, Rest(sends), steps, Counter(sends))
    }

    function Rest(sends: seq<Sending>): seq<Reply> {
      if |sends| <= |upsets| then upsets[|sends|..] else []
    }
  }

  /** What the last answer makes of the command. An ASK is given up only for a node the client does not know. */
  predicate Ends(sends: seq<Sending>, r: Result, known: set<Name>) {
    && 0 < |sends| <= REQUEST_TTL
    && match sends[|sends| - 1].reply
       case Value(history) => r == Answer(history)
       case ClusterDown => r == Raised(Down)
       case ConnectionLost => r == Raised(Lost)
       case AskAt(node) =>
         if |sends| == REQUEST_TTL then r == Raised(TtlExhausted) else r == Raised(UnknownNode) && node !in known
       case _ => |sends| == REQUEST_TTL && r == Raised(TtlExhausted)
  }

  /** What routing one slot depends on, and the roles of the nodes. */
  datatype Table = Table(view: View, roles: map<Name, Role>, sharers: set<Slot>, pending: Option<Moved>)

  class RedisCluster {
    const nodes: NodesManager
    const servers: Servers
    const reinitializeSteps: nat
    var reinitializeCounter: nat

    constructor (nodes: NodesManager, servers: Servers, reinitializeSteps: nat)
      ensures this.nodes == nodes && this.servers == servers
      ensures this.reinitializeSteps == reinitializeSteps && reinitializeCounter == 0
    {
      this.nodes, this.servers, this.reinitializeSteps, reinitializeCounter := nodes, servers, reinitializeSteps, 0;
    }

    /** Every slot has a route, possibly a stale one, and a reload would find the owners. */
    ghost predicate Ready()
      reads this, nodes, nodes.slotsCache.Values, servers
    {
      && (forall s: Slot :: s in nodes.slotsCache) && Routes(nodes.View())
      && servers.Truthful() && servers.UpsetsOnly()
    }

    /** One more MOVED reloads the table. */
    predicate NextMovedReloads()
      reads this
    {
      ReloadDue(reinitializeSteps, reinitializeCounter + 1)
    }

    predicate ShouldReinitialize()
      reads this
    {
      ReloadDue(reinitializeSteps, reinitializeCounter)
    }

    /** nodes_manager.initialize(): every slot is routed to its owner. */
    method Reload()
      requires Ready()
      modifies nodes
      ensures Ready()
      ensures nodes.movedException == None && (forall o :: o in nodes.slotsCache.Values ==> fresh(o))
      ensures forall s: Slot :: Heads(s, servers.owner(s))
      ensures OwnersRouted()
      ensures servers.Clean() ==> WellFormed(nodes.View(), nodes.nodesCache.Keys)
    {
      hide Conflicts, Processed, FirstClaim, Covers, NodesManager.Table, Heads, Routes, WellFormed, NodesManager.View,
          OwnersRouted;
      ghost var claims := Processed(servers.view, []);
      ghost var examined;
      var r;
      r, examined := nodes.Initialize(servers.view);
      CoversAll(claims);
      assert claims != [] by {
        assert FirstClaim(claims, 0).Some?;
      }
      assert r.Loaded?;
      LoadedTable(claims);
    }

    /** A table of claims that name the owners routes every slot to its owner. */
    lemma {:induction false} LoadedTable(claims: seq<Section>)
      requires nodes.Table(nodes.slotsCache, nodes.nodesCache, claims) && Covers(claims) && nodes.movedException.None?
      requires forall s: Slot :: FirstClaim(claims, s).Some? ==>
        claims[FirstClaim(claims, s).value].primary == servers.owner(s)
      ensures (forall s: Slot :: s in nodes.slotsCache) && Routes(nodes.View())
      ensures forall s: Slot :: Heads(s, servers.owner(s))
      ensures OwnersRouted()
      ensures (forall k :: 0 <= k < |claims| ==> Distinct(claims[k].Nodes())) ==>
        WellFormed(nodes.View(), nodes.nodesCache.Keys)
    {
      hide FirstClaim, NodesManager.Table, Covers;
      forall s: Slot
        ensures s in nodes.slotsCache && Heads(s, servers.owner(s)) && exists k :: LoadedFrom(claims, s, k)
      {
        LoadedList(claims, s);
      }
    }

    ghost predicate LoadedFrom(claims: seq<Section>, s: Slot, k: nat)
      reads nodes, nodes.slotsCache.Values
    {
      && k < |claims| && s in nodes.View() && nodes.View()[s] == claims[k].Nodes()
      && claims[k].primary == servers.owner(s) && forall n :: n in claims[k].Nodes() ==> n in nodes.nodesCache
    }

    lemma {:induction false} LoadedList(claims: seq<Section>, s: Slot)
      requires nodes.Table(nodes.slotsCache, nodes.nodesCache, claims) && Covers(claims)
      requires FirstClaim(claims, s).Some? ==> claims[FirstClaim(claims, s).value].primary == servers.owner(s)
      ensures s in nodes.slotsCache && exists k :: LoadedFrom(claims, s, k)
    {
      hide FirstClaim;
      var k := FirstClaim(claims, s).value;
      assert LoadedFrom(claims, s, k);
    }

    /** The table that the next look-up will use: a pending MOVED is applied first. */
    ghost function NextView(): View
      reads nodes`slotsCache, nodes`movedException, nodes.slotsCache.Values
    {
      if nodes.movedException.Some? && nodes.movedException.value.slot in nodes.View() then
        MovedView(nodes.View(), nodes.Sharers(nodes.movedException.value.slot), nodes.movedException.value)
      else
        nodes.View()
    }

    /** get_node_from_slot on a table that routes every slot. */
    method Route(slot: Slot) returns (node: Name)
      requires Ready()
      modifies nodes, nodes.slotsCache.Values
      ensures Ready() && nodes.movedException == None
      ensures forall o :: o in nodes.slotsCache.Values ==> o in old(nodes.slotsCache.Values) || fresh(o)
      ensures Heads(slot, node) && node == nodes.View()[slot][0] && nodes.View() == old(NextView())
      ensures nodes.connected == old(nodes.connected)
      ensures old(nodes.movedException).None? ==>
        nodes.nodesCache == old(nodes.nodesCache) && nodes.Sharers(slot) == old(nodes.Sharers(slot))
      ensures old(nodes.movedException).Some? ==>
        && nodes.View() ==
            MovedView(old(nodes.View()), old(nodes.Sharers(nodes.movedException.value.slot)),
            old(nodes.movedException.value))
        && nodes.nodesCache.Keys == old(nodes.nodesCache.Keys) + {old(nodes.movedException.value.target)}
        && nodes.View()[old(nodes.movedException.value.slot)][0] == old(nodes.movedException.value.target)
    {
      hide Patched, Servers.Truthful;
      if nodes.movedException.Some? {
        MovedRoutes(nodes.View(), nodes.Sharers(nodes.movedException.value.slot), nodes.movedException.value);
      }
      var found := nodes.GetNodeFromSlot(slot);
      assert forall s: Slot :: s in nodes.View();
      node := found.node;
    }

    /** A node that is about to be used gets a connection; nothing else changes. */
    method GetRedisConnection(node: Name)
      requires Ready()
      modifies nodes`connected
      ensures Ready() && nodes.View() == old(nodes.View()) && NextView() == old(NextView())
      ensures nodes.connected == old(nodes.connected) + {node}
      ensures forall s :: nodes.Sharers(s) == old(nodes.Sharers(s))
    {
      hide MovedView, Servers.Truthful, Routes;
      nodes.CreateRedisConnection(node);
    }

    /** The answer to MOVED: note it, or reload the whole table when enough of them have been seen. */
    method NoteMoved(slot: Slot, node: Name)
      requires Ready()
      modifies this, nodes
      ensures Ready() && forall o :: o in nodes.slotsCache.Values ==> o in old(nodes.slotsCache.Values) || fresh(o)
      ensures Heads(slot, if old(NextMovedReloads()) then servers.owner(slot) else node)
      ensures node == servers.owner(slot) ==> Corrected(slot, old(TableFor(slot)))
      ensures reinitializeCounter ==
        if old(NextMovedReloads()) then 0 else old(reinitializeCounter) + 1
      ensures !old(NextMovedReloads()) ==>
        && nodes.movedException == Some(Moved(slot, node)) && nodes.View() == old(nodes.View())
        && nodes.nodesCache == old(nodes.nodesCache) && nodes.Sharers(slot) == old(nodes.Sharers(slot))
      ensures old(NextMovedReloads()) ==>
        && nodes.movedException.None? && nodes.View()[slot][0] == servers.owner(slot)
        && (servers.Clean() ==> WellFormed(nodes.View(), nodes.nodesCache.Keys))
    {
      hide Servers.Truthful, OwnersRouted, WellFormed, NodesManager.View, Routes, NextView;
      InTable(slot);
      reinitializeCounter := reinitializeCounter + 1;
      if ShouldReinitialize() {
        Reload();
        reinitializeCounter := 0;
      } else {
        nodes.movedException := Some(Moved(slot, node));
      }
    }

    /** A round of this command, begun at this node in the present state. */
    function StartAt(first: Name, command: Command): Start
      reads this, servers
    {
      Start(first, command, servers.owner(command.slot), LogOf(servers.logs, command.slot), servers.upsets,
            reinitializeSteps, reinitializeCounter)
    }

    /** One send of the loop. */
    method SendTo(target: Name, command: Command, asking: bool, ghost start: Start, ghost sends: seq<Sending>)
      returns (reply: Reply, ghost sends': seq<Sending>)
      requires Ready() && start.Follows(sends) && (sends != [] ==> Redirects(sends[|sends| - 1].reply))
      requires start.command == command && start.owner == servers.owner(command.slot)
      requires start.history == LogOf(servers.logs, command.slot) && servers.upsets == start.Rest(sends)
      requires target == start.Target(sends) && asking == (sends != [] && sends[|sends| - 1].reply.AskAt?)
      modifies servers, nodes`connected
      ensures Ready() && start.Follows(sends') && sends' == sends + [Sending(target, command, asking, reply)]
      ensures servers.sent == old(servers.sent) + [Sending(target, command, asking, reply)]
      ensures servers.upsets == start.Rest(sends') && sends'[..|sends|] == sends
      ensures start.upsets == [] ==> servers.upsets == []
      ensures start.Counter(sends') == start.CounterNext(start.Counter(sends), reply)
      ensures start.Target(sends') == start.TargetNext(target, start.Counter(sends), reply)
      ensures AllKeepTable(sends') <==> AllKeepTable(sends) && KeepsTable(reply)
      ensures reply == start.AnswerOf(target, |sends|)
      ensures servers.logs == if reply.Value? then Executed(old(servers.logs), command) else old(servers.logs)
      ensures nodes.connected == old(nodes.connected) + {target}
    {
      hide Servers.Truthful, LogOf, Routes;
      GetRedisConnection(target);
      ExecutedLog(servers.logs, command);
      reply := servers.Send(target, command, asking);
      var sending := Sending(target, command, asking, reply);
      sends' := sends + [sending];
      assert sends'[..|sends|] == sends;
      AllKeepTableAppend(sends, sending);
    }

    /** No MOVED is pending, no upset is due: the next answers are those of the owners. */
    predicate Settled()
      reads nodes, servers
    {
      servers.upsets == [] && nodes.movedException.None?
    }

    /** The next look-up of the slot gives this node, because it is pending or because the table was reloaded. */
    ghost predicate Heads(slot: Slot, node: Name)
      reads nodes`slotsCache, nodes`movedException, nodes.slotsCache.Values
    {
      && slot in nodes.View() && nodes.View()[slot] != []
      && if nodes.movedException.Some? then nodes.movedException.value == Moved(slot, node)
         else nodes.View()[slot][0] == node
    }

    /** What an answer does to the slot table: only a MOVED, a lost connection or a cluster that is down matters. */
    method NoteReply(slot: Slot, reply: Reply)
      requires Ready()
      modifies this, nodes
      ensures Ready() && forall o :: o in nodes.slotsCache.Values ==> o in old(nodes.slotsCache.Values) || fresh(o)
      ensures KeepsTable(reply) ==> unchanged(nodes)
      ensures reply.MovedTo? ==>
        && Heads(slot, if old(NextMovedReloads()) then servers.owner(slot) else reply.node)
        && (reply.node == servers.owner(slot) ==> Corrected(slot, old(TableFor(slot))))
      ensures reinitializeCounter ==
        if !reply.MovedTo? then old(reinitializeCounter)
        else if old(NextMovedReloads()) then 0
        else old(reinitializeCounter) + 1
      ensures reply.ClusterDown? || reply.ConnectionLost? ==>
        nodes.movedException == None && Heads(slot, servers.owner(slot))
    {
      hide Ready, Corrected, TableFor, Heads, Repaired;
      match reply
      case MovedTo(node) => NoteMoved(slot, node);
      case ClusterDown => Reload();
      case ConnectionLost => Reload();
      case _ =>
    }

    /** Where the loop sends next: to the node an ASK named, or where the slot leads after a MOVED. */
    method NextTarget(slot: Slot, target: Name, redirect: Option<Name>, asking: bool, moved: bool, ghost next: Name,
        ghost before: Table)
      returns (node: Option<Name>)
      requires Ready()
      requires if asking then redirect == Some(next) else if moved then Heads(slot, next) else target == next
      modifies nodes, nodes.slotsCache.Values
      ensures Ready() && forall o :: o in nodes.slotsCache.Values ==> o in old(nodes.slotsCache.Values) || fresh(o)
      ensures node == if asking && next !in nodes.nodesCache then None else Some(next)
      ensures asking || !moved ==> TableFor(slot) == old(TableFor(slot))
      ensures moved && !asking ==> nodes.movedException == None && Heads(slot, next) && nodes.View() == old(NextView())
      ensures moved && !asking && next == servers.owner(slot) && old(Corrected(slot, before)) ==> Repaired(slot, before)
    {
      hide Servers.Truthful, Routes, Patched, MovedView, NodesManager.View;
      if asking {
        return if redirect.value in nodes.nodesCache then redirect else None;
      }
      if moved {
        var routed := Route(slot);
        return Some(routed);
      }
      return Some(target);
    }

    ghost function TableFor(slot: Slot): Table
      reads nodes`slotsCache, nodes`nodesCache, nodes`movedException, nodes.slotsCache.Values
    {
      Table(nodes.View(), nodes.nodesCache, nodes.Sharers(slot), nodes.movedException)
    }

    /** One round of the loop, up to the answer: None stands for the error that an unknown node causes. */
    method SendNext(command: Command, target: Name, redirect: Option<Name>, asking: bool, moved: bool,
        ghost start: Start, ghost sends: seq<Sending>, ghost before: Table)
      returns (reply: Option<Reply>, node: Name, ghost sends': seq<Sending>)
      requires Ready() && start.Follows(sends) && (sends != [] ==> Redirects(sends[|sends| - 1].reply))
      requires start.command == command && start.owner == servers.owner(command.slot)
      requires start.history == LogOf(servers.logs, command.slot) && servers.upsets == start.Rest(sends)
      requires asking <==> sends != [] && sends[|sends| - 1].reply.AskAt?
      requires var next := start.Target(sends);
        if asking then redirect == Some(next) else if moved then Heads(command.slot, next) else target == next
      modifies nodes, nodes.slotsCache.Values, servers
      ensures Ready() && forall o :: o in nodes.slotsCache.Values ==> o in old(nodes.slotsCache.Values) || fresh(o)
      ensures reply.None? <==> asking && start.Target(sends) !in nodes.nodesCache
      ensures reply.None? ==> unchanged(servers) && sends' == sends
      ensures reply.Some? ==>
        && node == start.Target(sends) && sends' == sends + [Sending(node, command, asking, reply.value)]
        && start.Follows(sends') && servers.sent == old(servers.sent) + [Sending(node, command, asking, reply.value)]
        && servers.upsets == start.Rest(sends')
        && servers.logs == (if reply.value.Value? then Executed(old(servers.logs), command) else old(servers.logs))
        && (AllKeepTable(sends') <==> AllKeepTable(sends) && KeepsTable(reply.value))
      ensures reply.Some? ==>
        && start.Counter(sends') == start.CounterNext(start.Counter(sends), reply.value)
        && start.Target(sends') == start.TargetNext(node, start.Counter(sends), reply.value)
      ensures asking || !moved ==> TableFor(command.slot) == old(TableFor(command.slot))
      ensures moved && !asking ==>
        && nodes.movedException == None && Heads(command.slot, start.Target(sends))
        && (start.Target(sends) == start.owner && old(Corrected(command.slot, before)) ==>
              Repaired(command.slot, before))
    {
      hide Ready, TableFor, Corrected, Repaired, Heads, Start.Follows, Start.Rest, Start.Counter, LogOf, Executed,
          AllKeepTable;
      node, sends' := target, sends;
      var next := NextTarget(command.slot, target, redirect, asking, moved, start.Target(sends), before);
      if next.None? {
        return None, target, sends;
      }
      node := next.value;
      var answer;
      answer, sends' := SendTo(node, command, asking, start, sends);
      reply := Some(answer);
    }

    /**
     _execute_command: follows redirections until the command is answered, at most REQUEST_TTL sends. Every send,
     its node and ASKING included, and the result are determined by the answers.
     */
    method ExecuteOn(first: Name, command: Command) returns (r: Result, ghost sends: seq<Sending>)
      requires Ready()
      modifies this, nodes, nodes.slotsCache.Values, servers
      ensures Ready() && forall o :: o in nodes.slotsCache.Values ==> o in old(nodes.slotsCache.Values) || fresh(o)
      ensures old(StartAt(first, command)).Follows(sends) && Ends(sends, r, nodes.nodesCache.Keys)
      ensures servers.sent == old(servers.sent) + sends
      ensures servers.upsets == old(StartAt(first, command)).Rest(sends)
      ensures servers.logs == if r.Answer? then Executed(old(servers.logs), command) else old(servers.logs)
      ensures reinitializeCounter == old(StartAt(first, command)).Counter(sends)
      ensures GivenUp(r) ==> nodes.movedException == None && Heads(command.slot, servers.owner(command.slot))
      ensures AllKeepTable(sends) ==> TableFor(command.slot) == old(TableFor(command.slot))
      ensures old(nodes.movedException).None? && r.Answer? && CorrectedOnce(sends, servers.owner(command.slot)) ==>
        && nodes.movedException.None? && Heads(command.slot, servers.owner(command.slot))
        && Repaired(command.slot, old(TableFor(command.slot)))
    {
      hide Ready, Patched, MovedView, AllKeepTable, Executed, LogOf, Routes, WellFormed, WithoutFirst,
          NodesManager.View, Start.Follows, Start.Counter, Start.Rest, Start.Target, Heads, TableFor, Corrected,
          Repaired;
      ghost var start := StartAt(first, command);
      var target := first;
      var redirect: Option<Name> := None;
      var asking, moved := false, false;
      var ttl := REQUEST_TTL;
      sends := [];
      ghost var owner := servers.owner(command.slot);
      ghost var table := TableFor(command.slot);
      NothingSent(start);
      while ttl > 0
        invariant 0 <= ttl <= REQUEST_TTL && |sends| == REQUEST_TTL - ttl
        invariant Ready() && forall o :: o in nodes.slotsCache.Values ==> o in old(nodes.slotsCache.Values) || fresh(o)
        invariant servers.sent == old(servers.sent) + sends && start.Follows(sends)
        invariant servers.upsets == start.Rest(sends) && servers.logs == old(servers.logs)
        invariant reinitializeCounter == start.Counter(sends)
        invariant sends != [] ==> Redirects(sends[|sends| - 1].reply)
        invariant asking <==> sends != [] && sends[|sends| - 1].reply.AskAt?
        invariant asking ==> sends[|sends| - 1].reply == AskAt(start.Target(sends))
        invariant moved <==> sends != [] && sends[|sends| - 1].reply.MovedTo?
        invariant if asking then redirect == Some(start.Target(sends))
                  else if moved then Heads(command.slot, start.Target(sends))
                  else target == start.Target(sends)
        invariant AllKeepTable(sends) ==> !moved
        invariant AllKeepTable(sends) ==> TableFor(command.slot) == table
        invariant |sends| == 1 && sends[0].reply == MovedTo(owner) ==>
          start.Target(sends) == owner && Corrected(command.slot, table)
      {
        ttl := ttl - 1;
        var reply;
        reply, target, sends := SendNext(command, target, redirect, asking, moved, start, sends, table);
        if reply.None? {
          r := Raised(UnknownNode);
          return;
        }
        asking, moved := false, false;
        NoteReply(command.slot, reply.value);
        match reply.value
        case Value(history) =>
          r := Answer(history);
          return;
        case MovedTo(_) =>
          moved := true;
        case TryAgain =>
        case AskAt(node) =>
          redirect := Some(node);
          asking := true;
        case ClusterDown =>
          r := Raised(Down);
          return;
        case ConnectionLost =>
          r := Raised(Lost);
          return;
      }
      r := Raised(TtlExhausted);
    }

    /** After the one wrong send: the table is about to be patched with the owner, or has been reloaded. */
    ghost predicate Corrected(slot: Slot, before: Table)
      reads nodes`slotsCache, nodes`nodesCache, nodes`movedException, nodes.slotsCache.Values
    {
      if nodes.movedException.Some? then
        TableFor(slot) == before.(pending := Some(Moved(slot, servers.owner(slot))))
      else
        servers.Clean() ==> WellFormed(nodes.View(), nodes.nodesCache.Keys)
    }

    /** What a wrong route has led to: the slot was patched with its owner, or the table was reloaded. */
    ghost predicate Repaired(slot: Slot, before: Table)
      reads nodes`slotsCache, nodes`nodesCache, nodes`movedException, nodes.slotsCache.Values
    {
      || (slot in before.view && before.view[slot] != []
          && nodes.View() == MovedView(before.view, before.sharers, Moved(slot, servers.owner(slot)))
          && nodes.nodesCache.Keys == before.roles.Keys + {servers.owner(slot)})
      || (servers.Clean() ==> WellFormed(nodes.View(), nodes.nodesCache.Keys))
    }

    /** Every slot is routed to its owner. */
    ghost predicate OwnersRouted()
      reads nodes`slotsCache, nodes.slotsCache.Values
    {
      forall s: Slot :: s in nodes.View() && nodes.View()[s] != [] && nodes.View()[s][0] == servers.owner(s)
    }

    /** One round of execute_command: looks the slot up, and follows redirections from there. */
    method ExecuteOnce(command: Command) returns (r: Result, ghost sends: seq<Sending>)
      requires Ready()
      modifies this, nodes, nodes.slotsCache.Values, servers
      ensures Ready() && forall o :: o in nodes.slotsCache.Values ==> o in old(nodes.slotsCache.Values) || fresh(o)
      ensures old(StartAt(NextView()[command.slot][0], command)).Follows(sends)
      ensures Ends(sends, r, nodes.nodesCache.Keys) && servers.sent == old(servers.sent) + sends
      ensures servers.upsets == old(StartAt(NextView()[command.slot][0], command)).Rest(sends)
      ensures servers.logs == if r.Answer? then Executed(old(servers.logs), command) else old(servers.logs)
      ensures reinitializeCounter == old(StartAt(NextView()[command.slot][0], command)).Counter(sends)
      ensures GivenUp(r) ==> command.slot in NextView() && NextView()[command.slot] != []
      ensures GivenUp(r) ==> NextView()[command.slot][0] == servers.owner(command.slot)
      ensures old(Settled()) ==>
        && Settled() && servers.logs == Executed(old(servers.logs), command)
            && r == Answer(LogOf(servers.logs, command.slot))
        && |sends| == (if old(nodes.View()[command.slot][0]) == servers.owner(command.slot) then 1 else 2)
        && nodes.View()[command.slot][0] == servers.owner(command.slot)
        && (old(nodes.View()[command.slot][0]) == servers.owner(command.slot) ==> nodes.View() == old(nodes.View()))
        && (servers.Clean() && old(WellFormed(nodes.View(), nodes.nodesCache.Keys)) ==>
            WellFormed(nodes.View(), nodes.nodesCache.Keys))
    {
      hide MovedView, Patched, WithoutFirst, WellFormed, Executed, LogOf, Ready, NodesManager.View, AllKeepTable,
          Start.Follows, Start.Counter, Start.Rest, Ends;
      ghost var view, cache, sharers := nodes.View(), nodes.nodesCache, nodes.Sharers(command.slot);
      ghost var settled, owner := Settled(), servers.owner(command.slot);
      InTable(command.slot);
      ghost var start := StartAt(NextView()[command.slot][0], command);
      ExecutedLog(servers.logs, command);
      var target := Route(command.slot);
      r, sends := ExecuteOn(target, command);
      if settled {
        UndisturbedRound(start, sends, r, nodes.nodesCache.Keys);
        if target != owner && WellFormed(view, cache.Keys) {
          MovedWellFormed(view, sharers, Moved(command.slot, owner), cache.Keys);
        }
      }
    }

    lemma {:induction false} InTable(slot: Slot)
      requires Ready()
      ensures slot in nodes.View() && nodes.View()[slot] != [] && slot in nodes.Sharers(slot)
      ensures slot in NextView() && NextView()[slot] != []
    {
      hide Patched;
      if nodes.movedException.Some? {
        assert nodes.movedException.value.slot in nodes.View();
        MovedRoutes(nodes.View(), nodes.Sharers(nodes.movedException.value.slot), nodes.movedException.value);
      }
    }

    /**
     execute_command: one round, and up to ERROR_RETRY_ATTEMPTS more after a lost connection or a cluster that
     is down, each at the owner that the reloaded table names. When nothing interferes, the owner executes the
     command exactly once, after at most one wrong send, and is where the slot is routed from then on.
     */
    method ExecuteCommand(command: Command) returns (r: Result, ghost rounds: seq<Round>)
      requires Ready()
      modifies this, nodes, nodes.slotsCache.Values, servers
      ensures Ready() && forall o :: o in nodes.slotsCache.Values ==> o in old(nodes.slotsCache.Values) || fresh(o)
      ensures Tried(old(StartAt(NextView()[command.slot][0], command)), rounds)
      ensures r == rounds[|rounds| - 1].result && rounds[|rounds| - 1].known == nodes.nodesCache.Keys
      ensures |rounds| <= 1 + ERROR_RETRY_ATTEMPTS
      ensures r == Raised(Down) || r == Raised(Lost) ==> |rounds| == 1 + ERROR_RETRY_ATTEMPTS
      ensures servers.sent == old(servers.sent) + AllSends(rounds)
      ensures servers.logs == if r.Answer? then Executed(old(servers.logs), command) else old(servers.logs)
      ensures |servers.sent| <= |old(servers.sent)| + (1 + ERROR_RETRY_ATTEMPTS) * REQUEST_TTL
      ensures old(Settled()) ==>
        && Settled() && r == Answer(LogOf(servers.logs, command.slot))
        && |servers.sent| == |old(servers.sent)| +
            (if old(nodes.View()[command.slot][0]) == servers.owner(command.slot) then 1 else 2)
        && nodes.View()[command.slot][0] == servers.owner(command.slot)
        && (old(nodes.View()[command.slot][0]) == servers.owner(command.slot) ==> nodes.View() == old(nodes.View()))
        && (servers.Clean() && old(WellFormed(nodes.View(), nodes.nodesCache.Keys)) ==>
            WellFormed(nodes.View(), nodes.nodesCache.Keys))
    {
      hide WellFormed, Executed, LogOf, Servers.Truthful, Routes, Start.Follows, Start.Counter, Start.Rest, Ends,
          MovedView, Ready, NextView, NodesManager.View, Tried, AllSends, Left;
      InTable(command.slot);
      ghost var start := StartAt(NextView()[command.slot][0], command);
      ghost var sends;
      r, sends := ExecuteOnce(command);
      ghost var first := Round(start, sends, r, nodes.nodesCache.Keys);
      FirstAttempt(first);
      FirstLeft(first, command);
      rounds := [first];
      if GivenUp(r) {
        r, rounds := Retry(command, r, first, old(servers.sent));
      }
    }

    /** The last round has been given up, and the state is as it left it. */
    ghost predicate Left(last: Round, command: Command)
      reads this, nodes, nodes.slotsCache.Values, servers
    {
      && Ready() && last.start.command == command && last.start.owner == servers.owner(command.slot)
      && last.start.steps == reinitializeSteps && reinitializeCounter == last.start.Counter(last.sends)
      && servers.upsets == last.start.Rest(last.sends) && last.known == nodes.nodesCache.Keys
      && (GivenUp(last.result) ==>
            && last.start.history == LogOf(servers.logs, command.slot)
            && command.slot in NextView() && NextView()[command.slot] != []
            && NextView()[command.slot][0] == last.start.owner)
    }

    lemma {:induction false} FirstLeft(first: Round, command: Command)
      requires Ready() && first.start.command == command && first.start.owner == servers.owner(command.slot)
      requires first.start.steps == reinitializeSteps && reinitializeCounter == first.start.Counter(first.sends)
      requires servers.upsets == first.start.Rest(first.sends) && first.known == nodes.nodesCache.Keys
      requires GivenUp(first.result) ==>
        && first.start.history == LogOf(servers.logs, command.slot)
        && command.slot in NextView() && NextView()[command.slot] != []
        && NextView()[command.slot][0] == first.start.owner
      ensures Left(first, command)
    {
    }

    /** Up to ERROR_RETRY_ATTEMPTS more rounds. */
    method Retry(command: Command, failed: Result, ghost first: Round, ghost sent: seq<Sending>)
      returns (r: Result, ghost rounds: seq<Round>)
      requires Left(first, command) && first.result == failed && GivenUp(failed) && first.Complete()
      requires servers.sent == sent + first.sends
      modifies this, nodes, nodes.slotsCache.Values, servers
      ensures Ready() && forall o :: o in nodes.slotsCache.Values ==> o in old(nodes.slotsCache.Values) || fresh(o)
      ensures Tried(first.start, rounds)
      ensures r == rounds[|rounds| - 1].result && rounds[|rounds| - 1].known == nodes.nodesCache.Keys
      ensures |rounds| <= 1 + ERROR_RETRY_ATTEMPTS
      ensures r == Raised(Down) || r == Raised(Lost) ==> |rounds| == 1 + ERROR_RETRY_ATTEMPTS
      ensures servers.sent == sent + AllSends(rounds) && |AllSends(rounds)| <= |rounds| * REQUEST_TTL
      ensures servers.logs == if r.Answer? then Executed(old(servers.logs), command) else old(servers.logs)
    {
      hide Ready, NextView, Executed, LogOf, Round.Complete, Tried, AllSends;
      var retries := ERROR_RETRY_ATTEMPTS;
      FirstAttempt(first);
      rounds := [first];
      r := failed;
      while retries > 0 && GivenUp(r)
        invariant 0 <= retries <= ERROR_RETRY_ATTEMPTS && |rounds| == 1 + ERROR_RETRY_ATTEMPTS - retries
        invariant forall o :: o in nodes.slotsCache.Values ==> o in old(nodes.slotsCache.Values) || fresh(o)
        invariant Tried(first.start, rounds) && Left(rounds[|rounds| - 1], command)
        invariant r == rounds[|rounds| - 1].result
        invariant servers.sent == sent + AllSends(rounds) && |AllSends(rounds)| <= |rounds| * REQUEST_TTL
        invariant servers.logs == if r.Answer? then Executed(old(servers.logs), command) else old(servers.logs)
        decreases retries
      {
        retries := retries - 1;
        ghost var next;
        r, next := ExecuteAgain(command, rounds[|rounds| - 1]);
        OneMoreAttempt(first.start, rounds, next);
        rounds := rounds + [next];
      }
    }

    /** One more round, at the owner of the slot in the table that was reloaded. */
    method ExecuteAgain(command: Command, ghost last: Round) returns (r: Result, ghost next: Round)
      requires Left(last, command) && GivenUp(last.result)
      modifies this, nodes, nodes.slotsCache.Values, servers
      ensures Left(next, command) && next.Complete() && next.result == r && next.start == last.start.Again(last.sends)
      ensures forall o :: o in nodes.slotsCache.Values ==> o in old(nodes.slotsCache.Values) || fresh(o)
      ensures servers.sent == old(servers.sent) + next.sends
      ensures servers.logs == if r.Answer? then Executed(old(servers.logs), command) else old(servers.logs)
    {
      hide Ready, NextView, Executed, LogOf, Start.Follows, Start.Counter, Start.Rest, Ends;
      ghost var start := StartAt(NextView()[command.slot][0], command);
      ghost var sends;
      r, sends := ExecuteOnce(command);
      next := Round(start, sends, r, nodes.nodesCache.Keys);
    }

    lemma {:induction false} NothingSent(start: Start)
      ensures start.Follows([]) && start.Counter([]) == start.counter && start.Rest([]) == start.upsets
      ensures start.Target([]) == start.first
      ensures AllKeepTable([])
    {
    }
  }

  lemma {:induction false} UndisturbedSends(start: Start, sends: seq<Sending>)
    requires start.Follows(sends) && start.upsets == []
    ensures |sends| <= 2
    ensures |sends| >= 1 ==> sends[0].node == start.first && sends[0].reply == start.AnswerOf(start.first, 0)
    ensures |sends| == 2 ==> sends[0].reply.MovedTo? && sends[1].reply == start.AnswerOf(start.owner, 1)
  {
    if sends != [] {
      UndisturbedSends(start, sends[..|sends| - 1]);
    }
  }

  /** Without upsets there is one send to the owner, or one wrong send before it. */
  lemma {:induction false} UndisturbedRound(start: Start, sends: seq<Sending>, r: Result, known: set<Name>)
    requires start.Follows(sends) && Ends(sends, r, known) && start.upsets == []
    ensures r == Answer(start.history + [start.command]) && start.Rest(sends) == []
    ensures if start.first == start.owner then |sends| == 1 && AllKeepTable(sends)
            else CorrectedOnce(sends, start.owner)
  {
    UndisturbedSends(start, sends);
  }

  // ---------------------------------------------------------------- how a round ends

  /** Upsets that only redirect. */
  predicate OnlyRedirects(upsets: seq<Reply>) {
    forall i :: 0 <= i < |upsets| ==> Redirects(upsets[i])
  }

  function Reloads(steps: nat, counter: nat, upsets: seq<Reply>): nat {
    if upsets == [] then counter
    else
      var before := Reloads(steps, counter, upsets[..|upsets| - 1]);
      if !upsets[|upsets| - 1].MovedTo? then before else if ReloadDue(steps, before + 1) then 0 else before + 1
  }

  /** The node that a run of redirections leads to. */
  function Destination(start: Start, upsets: seq<Reply>): Name {
    if upsets == [] then start.first
    else
      var init := upsets[..|upsets| - 1];
      match upsets[|upsets| - 1]
      case AskAt(node) => node
      case MovedTo(node) =>
        if ReloadDue(start.steps, Reloads(start.steps, start.counter, init) + 1) then start.owner else node
      case _ => Destination(start, init)
  }

  /** While upsets last, the sends follow them; behind them, the owner answers, after one MOVED at most. */
  lemma {:induction false} SendsFollow(start: Start, sends: seq<Sending>)
    requires start.Follows(sends) && OnlyRedirects(start.upsets)
    ensures var n, k := |sends|, |start.upsets|;
      && n <= k + 2
      && (n <= k ==>
            && start.Target(sends) == Destination(start, start.upsets[..n])
            && start.Counter(sends) == Reloads(start.steps, start.counter, start.upsets[..n]))
      && (0 < n <= k ==> sends[n - 1].reply == start.upsets[n - 1])
      && (n == k + 1 ==> sends[k].reply == start.AnswerOf(Destination(start, start.upsets), k))
      && (n == k + 1 && sends[k].reply.MovedTo? ==> start.Target(sends) == start.owner)
      && (n == k + 2 ==> Destination(start, start.upsets) != start.owner)
      && (n == k + 2 ==> sends[k + 1].reply == Value(start.history + [start.command]))
  {
    var n, k := |sends|, |start.upsets|;
    if n > 0 {
      var init := sends[..n - 1];
      SendsFollow(start, init);
      if n <= k {
        assert start.upsets[..n][..n - 1] == start.upsets[..n - 1] && start.upsets[..n][n - 1] == start.upsets[n - 1];
      } else if n == k + 1 {
        assert start.upsets[..k] == start.upsets;
      }
    }
  }

  /**
   A round whose upsets only redirect ends, unless an ASK named an unknown node, with one execution at the owner and
   its answer, as soon as the redirections have been followed and at most one wrong send corrected; or, if that
   takes more sends than allowed, with none.
   */
  lemma {:induction false} RedirectionsEnd(start: Start, sends: seq<Sending>, r: Result, known: set<Name>)
    requires start.Follows(sends) && Ends(sends, r, known) && OnlyRedirects(start.upsets)
    requires r != Raised(UnknownNode)
    ensures var n := |start.upsets| + if Destination(start, start.upsets) == start.owner then 1 else 2;
      if n <= REQUEST_TTL then |sends| == n && r == Answer(start.history + [start.command])
      else |sends| == REQUEST_TTL && r == Raised(TtlExhausted)
  {
    hide Start.Follows;
    SendsFollow(start, sends);
  }

  predicate Migrates(reply: Reply, known: set<Name>) {
    reply.TryAgain? || (reply.AskAt? && reply.node in known)
  }

  /** During a migration, a run of ASK and TRYAGAIN answers is followed to the node that the last ASK names. */
  lemma {:induction false} MigrationFollowed(start: Start, sends: seq<Sending>, r: Result, known: set<Name>)
    requires start.Follows(sends) && Ends(sends, r, known) && |start.upsets| + 2 <= REQUEST_TTL
    requires forall i :: 0 <= i < |start.upsets| ==> Migrates(start.upsets[i], known)
    ensures r == Answer(start.history + [start.command])
    ensures |sends| == |start.upsets| + if Destination(start, start.upsets) == start.owner then 1 else 2
  {
    hide Start.Follows, Destination;
    SendsFollow(start, sends);
    RedirectionsEndKnown(start, sends, r, known);
    RedirectionsEnd(start, sends, r, known);
  }

  lemma {:induction false} RedirectionsEndKnown(start: Start, sends: seq<Sending>, r: Result, known: set<Name>)
    requires start.Follows(sends) && Ends(sends, r, known)
    requires forall i :: 0 <= i < |start.upsets| ==> Migrates(start.upsets[i], known)
    ensures r != Raised(UnknownNode)
  {
    hide Destination;
    SendsFollow(start, sends);
  }

  /** One round, and the nodes that were known when it ended. */
  datatype Round = Round(start: Start, sends: seq<Sending>, result: Result, known: set<Name>) {
    ghost predicate Complete() {
      start.Follows(sends) && Ends(sends, result, known)
    }
  }

  /** Each round but the last was given up, and the next one began where that left the cluster. */
  ghost predicate Tried(start: Start, rounds: seq<Round>) {
    && rounds != [] && rounds[|rounds| - 1].Complete()
    && if |rounds| == 1 then rounds[0].start == start
       else
         var before := rounds[|rounds| - 2];
         && Tried(start, rounds[..|rounds| - 1]) && GivenUp(before.result)
         && rounds[|rounds| - 1].start == before.start.Again(before.sends)
  }

  function AllSends(rounds: seq<Round>): seq<Sending> {
    if rounds == [] then [] else AllSends(rounds[..|rounds| - 1]) + rounds[|rounds| - 1].sends
  }

  lemma {:induction false} FirstAttempt(first: Round)
    requires first.Complete()
    ensures Tried(first.start, [first]) && AllSends([first]) == first.sends && |first.sends| <= REQUEST_TTL
  {
    assert AllSends([first][..0]) == [];
  }

  lemma {:induction false} OneMoreAttempt(start: Start, rounds: seq<Round>, next: Round)
    requires Tried(start, rounds) && GivenUp(rounds[|rounds| - 1].result) && next.Complete()
    requires next.start == rounds[|rounds| - 1].start.Again(rounds[|rounds| - 1].sends)
    ensures Tried(start, rounds + [next]) && AllSends(rounds + [next]) == AllSends(rounds) + next.sends
    ensures |next.sends| <= REQUEST_TTL
  {
    hide Start.Follows;
    assert (rounds + [next])[..|rounds|] == rounds;
  }

  // ---------------------------------------------------------------- how the attempts end

  predicate Fails(reply: Reply) {
    reply.ClusterDown? || reply.ConnectionLost?
  }

  predicate NoValues(upsets: seq<Reply>) {
    forall i :: 0 <= i < |upsets| ==> !upsets[i].Value?
  }

  function Failing(upsets: seq<Reply>): nat {
    if upsets == [] then 0 else Failing(upsets[1..]) + if Fails(upsets[0]) then 1 else 0
  }

  lemma {:induction false} SendsHear(start: Start, sends: seq<Sending>)
    requires start.Follows(sends) && NoValues(start.upsets)
    ensures var n, k := |sends|, |start.upsets|;
      && n <= k + 2 && (forall i :: 0 <= i < n - 1 ==> Redirects(sends[i].reply))
      && (forall i :: 0 <= i < n && i < k ==> sends[i].reply == start.upsets[i])
      && (n > k && n > 0 ==> sends[n - 1].reply in {MovedTo(start.owner), Value(start.history + [start.command])})
      && (n == k + 1 && sends[n - 1].reply.MovedTo? ==> start.Target(sends) == start.owner)
      && (n == k + 2 ==> sends[n - 1].reply.Value?)
  {
    if sends != [] {
      SendsHear(start, sends[..|sends| - 1]);
    }
  }

  lemma {:induction false} FailingBehind(upsets: seq<Reply>, n: nat)
    requires n <= |upsets| && forall i :: 0 <= i < n ==> Redirects(upsets[i])
    ensures Failing(upsets) == Failing(upsets[n..])
  {
    if n > 0 {
      FailingBehind(upsets[1..], n - 1);
      assert upsets[1..][n - 1..] == upsets[n..];
    } else {
      assert upsets[0..] == upsets;
    }
  }

  /** A round that is given up has met one failure and leaves the upsets behind it. */
  lemma {:induction false} RoundGivenUp(start: Start, sends: seq<Sending>, r: Result, known: set<Name>)
    requires start.Follows(sends) && Ends(sends, r, known) && NoValues(start.upsets) && GivenUp(r)
    ensures var rest := start.Rest(sends);
      |rest| <= |start.upsets| && NoValues(rest) && Failing(start.upsets) == Failing(rest) + 1
  {
    hide Start.Follows;
    SendsHear(start, sends);
    var n := |sends|;
    FailingBehind(start.upsets, n - 1);
    assert start.upsets[n - 1..][1..] == start.upsets[n..];
  }

  lemma {:induction false} RoundsGivenUp(start: Start, rounds: seq<Round>)
    requires Tried(start, rounds) && NoValues(start.upsets)
    ensures var last := rounds[|rounds| - 1].start;
      && last.command == start.command && last.owner == start.owner && last.history == start.history
      && NoValues(last.upsets) && |last.upsets| <= |start.upsets|
      && Failing(start.upsets) == Failing(last.upsets) + |rounds| - 1
  {
    hide Start.Follows, Ends;
    if |rounds| > 1 {
      var init, before := rounds[..|rounds| - 1], rounds[|rounds| - 2];
      RoundsGivenUp(start, init);
      assert before.Complete();
      RoundGivenUp(before.start, before.sends, before.result, before.known);
    }
  }

  /**
   A command that meets no more failures than it may be retried, and not more upsets than a round may send, is
   executed once and answered, unless an ASK named an unknown node.
   */
  lemma {:induction false} CommandEnds(start: Start, rounds: seq<Round>)
    requires Tried(start, rounds) && NoValues(start.upsets)
    requires rounds[|rounds| - 1].result in {Raised(Down), Raised(Lost)} ==> |rounds| == 1 + ERROR_RETRY_ATTEMPTS
    requires |start.upsets| + 2 <= REQUEST_TTL && Failing(start.upsets) <= ERROR_RETRY_ATTEMPTS
    requires rounds[|rounds| - 1].result != Raised(UnknownNode)
    ensures rounds[|rounds| - 1].result == Answer(start.history + [start.command])
  {
    hide Start.Follows, Failing;
    var last := rounds[|rounds| - 1];
    RoundsGivenUp(start, rounds);
    SendsHear(last.start, last.sends);
    if GivenUp(last.result) {
      RoundGivenUp(last.start, last.sends, last.result, last.known);
    }
  }

  /** The replies that leave the slot table alone. */
  predicate KeepsTable(reply: Reply) {
    reply.Value? || reply.AskAt? || reply.TryAgain?
  }

  /** One wrong send, and one more. */
  predicate CorrectedOnce(sends: seq<Sending>, owner: Name) {
    |sends| == 2 && sends[0].reply == MovedTo(owner)
  }

  /** The errors after which execute_command tries again. */
  predicate GivenUp(r: Result) {
    r == Raised(Down) || r == Raised(Lost)
  }

  predicate AllKeepTable(sends: seq<Sending>) {
    forall i :: 0 <= i < |sends| ==> KeepsTable(sends[i].reply)
  }

  lemma {:induction false} AllKeepTableAppend(sends: seq<Sending>, s: Sending)
    ensures AllKeepTable(sends + [s]) <==> AllKeepTable(sends) && KeepsTable(s.reply)
  {
    assert (sends + [s])[|sends|] == s;
    assert forall i :: 0 <= i < |sends| ==> (sends + [s])[i] == sends[i];
    if AllKeepTable(sends + [s]) {
      forall i | 0 <= i < |sends| ensures KeepsTable(sends[i].reply) {
        assert (sends + [s])[i] == sends[i];
      }
    }
  }

  lemma {:induction false} CoversAll(claims: seq<Section>)
    requires Covers(claims)
    ensures forall s: Slot :: FirstClaim(claims, s).Some? && FirstClaim(claims, s).value < |claims|
  {
  }
}
