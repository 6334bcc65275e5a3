/** The cluster pipeline: group by node, write everything, read everything, repeat what was redirected. */
module ClusterPipelines {
  import opened Helpers
  import opened ClusterNodes
  import opened ClusterClient
  import opened PipelineSpec

  datatype CommandResult = Pending | Got(reply: Reply) | Failed(failure: Failure)

  class PipelineCommand {
    const command: Command
    const position: nat
    var result: CommandResult

    constructor (command: Command, position: nat)
      ensures this.command == command && this.position == position && result == Pending
    {
      this.command, this.position, result := command, position, Pending;
    }
  }

  function Commands(stack: seq<PipelineCommand>): (cs: seq<Command>)
    ensures |cs| == |stack|
  {
    seq(|stack|, i requires 0 <= i < |stack| => stack[i].command)
  }

  /** Every command knows its place, so no object is there twice. */
  predicate InPlace(stack: seq<PipelineCommand>) {
    forall i :: 0 <= i < |stack| ==> stack[i].position == i
  }

  /** The commands of one node, and its connection: what has been answered but not read yet. */
  class NodeCommands {
    const node: Name
    const servers: Servers
    var commands: seq<PipelineCommand>
    var inbox: seq<Reply>

    constructor (node: Name, servers: Servers)
      ensures this.node == node && this.servers == servers && commands == [] && inbox == []
    {
      this.node, this.servers, commands, inbox := node, servers, [], [];
    }

    method Append(c: PipelineCommand)
      modifies this`commands
      ensures commands == old(commands) + [c]
    {
      commands := commands + [c];
    }

    method ClearResults()
      modifies commands
      ensures forall c :: c in commands ==> c.result == Pending
    {
      for k := 0 to |commands|
        invariant forall j :: 0 <= j < k ==> commands[j].result == Pending
      {
        commands[k].result := Pending;
      }
    }

    method Write()
      requires servers.upsets == [] && inbox == []
      modifies this`inbox, servers, commands
      ensures servers.upsets == [] && servers.UpsetsOnly()
      ensures servers.logs == ServedAll(servers.owner, node, old(servers.logs), Commands(commands))
      ensures inbox == ServedReplies(servers.owner, node, old(servers.logs), Commands(commands))
      ensures |inbox| == |commands|
      ensures servers.sent == old(servers.sent) + Sendings(node, Commands(commands), inbox)
      ensures forall c :: c in commands ==> c.result == Pending
    {
      ClearResults();
      ghost var cs := Commands(commands);
      NothingServed(servers.owner, node, servers.logs, cs);
      hide ServedAll, ServedReplies, Sendings;
      NoSendings(node);
      for k := 0 to |commands|
        invariant forall c :: c in commands ==> c.result == Pending
        invariant servers.upsets == []
        invariant servers.logs == ServedAll(servers.owner, node, old(servers.logs), cs[..k])
        invariant inbox == ServedReplies(servers.owner, node, old(servers.logs), cs[..k])
        invariant |inbox| == k && servers.sent == old(servers.sent) + Sendings(node, cs[..k], inbox)
      {
        var reply := servers.Send(node, commands[k].command, false);
        OneMoreSending(node, cs, k, inbox, reply);
        inbox := inbox + [reply];
        NextServed(servers.owner, node, old(servers.logs), cs, k);
      }
      assert cs[..|cs|] == cs;
    }

    method Read()
      requires |inbox| == |commands|
      requires forall j, k :: 0 <= j < k < |commands| ==> commands[j] != commands[k]
      requires forall c :: c in commands ==> c.result == Pending
      modifies this`inbox, commands
      ensures forall k :: 0 <= k < |commands| ==> commands[k].result == Got(old(inbox)[k])
    {
      for k := 0 to |commands|
        invariant inbox == old(inbox)[k..]
        invariant forall j :: 0 <= j < k ==> commands[j].result == Got(old(inbox)[j])
        invariant forall j :: k <= j < |commands| ==> commands[j].result == Pending
      {
        if commands[k].result == Pending {
          commands[k].result := Got(inbox[0]);
          inbox := inbox[1..];
        }
      }
    }
  }

  /** The reply of the first round: that of the owner, or the redirection to it. */
  function FirstReply(start: Logs, cs: seq<Command>, view: View, owner: Slot -> Name, p: nat): Reply
    requires Total(view) && p < |cs|
  {
    if Misrouted(cs, view, owner, p) then MovedTo(owner(cs[p].slot)) else Due(start, cs, p)
  }

  /** Each command goes to the node once, in order and without ASKING. */
  function Sendings(node: Name, cs: seq<Command>, replies: seq<Reply>): seq<Sending>
    requires |replies| == |cs|
  {
    seq(|cs|, k requires 0 <= k < |cs| => Sending(node, cs[k], false, replies[k]))
  }

  lemma {:induction false} NoSendings(node: Name)
    ensures Sendings(node, [], []) == []
  {
  }

  lemma {:induction false} OneMoreSending(node: Name, cs: seq<Command>, k: nat, replies: seq<Reply>, reply: Reply)
    requires k < |cs| && |replies| == k
    ensures Sendings(node, cs[..k + 1], replies + [reply]) ==
      Sendings(node, cs[..k], replies) + [Sending(node, cs[k], false, reply)]
  {
  }

  function PickCommands(stack: seq<PipelineCommand>, ps: seq<nat>): (group: seq<PipelineCommand>)
    requires forall k :: 0 <= k < |ps| ==> ps[k] < |stack|
    ensures |group| == |ps|
  {
    seq(|ps|, k requires 0 <= k < |ps| => stack[ps[k]])
  }

  class ClusterPipeline {
    const cluster: RedisCluster
    var commandStack: seq<PipelineCommand>

    constructor (cluster: RedisCluster)
      ensures this.cluster == cluster && commandStack == []
    {
      this.cluster := cluster;
      commandStack := [];
    }

    method PipelineExecuteCommand(command: Command)
      requires InPlace(commandStack)
      modifies this
      ensures InPlace(commandStack) && Commands(commandStack) == old(Commands(commandStack)) + [command]
    {
      var c := new PipelineCommand(command, |commandStack|);
      commandStack := commandStack + [c];
    }

    /** The groups after routing the first `count` commands; a dict in insertion order is its values and its index. */
    ghost predicate Grouped(groups: map<Name, NodeCommands>, list: seq<NodeCommands>, stack: seq<PipelineCommand>,
        view: View, count: nat)
      requires Total(view) && count <= |stack|
      reads list
    {
      var cs := Commands(stack)[..count];
      && DistinctNodes(list)
      && (forall j :: 0 <= j < |list| ==>
            && list[j].node in groups && groups[list[j].node] == list[j]
            && list[j].servers == cluster.servers && list[j].inbox == []
            && list[j].commands == PickCommands(stack, Positions(cs, view, list[j].node)))
      && (forall n :: n in groups ==> groups[n] in list && groups[n].node == n)
      && (forall n :: n !in groups ==> Positions(cs, view, n) == [])
    }

    /** Makes sure that a node has a group. */
    method NeedGroup(groups: map<Name, NodeCommands>, list: seq<NodeCommands>, stack: seq<PipelineCommand>,
        ghost view: View, i: nat, node: Name)
      returns (groups': map<Name, NodeCommands>, list': seq<NodeCommands>)
      requires Total(view) && i < |stack| && Grouped(groups, list, stack, view, i)
      ensures Grouped(groups', list', stack, view, i) && node in groups' && Nodes(list') == Nodes(list) + {node}
      ensures forall j :: 0 <= j < |list'| ==> (j < |list| && list'[j] == list[j]) || fresh(list'[j])
    {
      hide Positions;
      groups', list' := groups, list;
      if node !in groups {
        var group := new NodeCommands(node, cluster.servers);
        groups' := groups[node := group];
        list' := list + [group];
        GroupAppended(list, group);
      } else {
        HasGroup(groups, list, stack, view, i, node);
      }
    }

    lemma {:induction false} HasGroup(groups: map<Name, NodeCommands>, list: seq<NodeCommands>,
        stack: seq<PipelineCommand>, view: View,
        i: nat, node: Name)
      requires Total(view) && i <= |stack| && Grouped(groups, list, stack, view, i) && node in groups
      ensures Nodes(list) + {node} == Nodes(list)
    {
      assert groups[node] in list;
    }

    /** Appends one command to the group of its node. */
    method AddToGroup(groups: map<Name, NodeCommands>, list: seq<NodeCommands>, stack: seq<PipelineCommand>,
        ghost view: View, i: nat, node: Name)
      requires Total(view) && i < |stack| && node == RouteOf(view, stack[i].command.slot) && node in groups
      requires Grouped(groups, list, stack, view, i)
      modifies groups[node]
      ensures Grouped(groups, list, stack, view, i + 1)
    {
      hide Positions, RouteOf;
      ghost var cs := Commands(stack);
      groups[node].Append(stack[i]);
      forall n: Name
          ensures Positions(cs[..i + 1], view, n) == Positions(cs[..i], view, n) + if n == node then [i] else [] {
        OneMorePosition(cs, view, n, i);
      }
    }

    method GroupNext(groups: map<Name, NodeCommands>, list: seq<NodeCommands>, stack: seq<PipelineCommand>,
        ghost view: View, i: nat, node: Name)
      returns (groups': map<Name, NodeCommands>, list': seq<NodeCommands>)
      requires Total(view) && i < |stack| && node == RouteOf(view, stack[i].command.slot)
      requires Grouped(groups, list, stack, view, i)
      modifies list
      ensures Grouped(groups', list', stack, view, i + 1) && Nodes(list') == Nodes(list) + {node}
      ensures forall j :: 0 <= j < |list'| ==> (j < |list| && list'[j] == list[j]) || fresh(list'[j])
    {
      hide Positions, RouteOf, Grouped;
      groups', list' := NeedGroup(groups, list, stack, view, i, node);
      ListedGroup(groups', list', stack, view, i, node);
      AddToGroup(groups', list', stack, view, i, node);
    }

    /** One command's slot is looked up, and a node that had none of the commands so far is connected. */
    method RouteNext(groups: map<Name, NodeCommands>, list: seq<NodeCommands>, stack: seq<PipelineCommand>,
        ghost view: View, i: nat)
      returns (groups': map<Name, NodeCommands>, list': seq<NodeCommands>)
      requires cluster.Ready() && Total(view) && view == cluster.NextView()
      requires i < |stack| && Grouped(groups, list, stack, view, i)
      modifies cluster.nodes, cluster.nodes.slotsCache.Values, list
      ensures cluster.Ready() && cluster.nodes.movedException == None && cluster.NextView() == view
      ensures forall o :: o in cluster.nodes.slotsCache.Values ==> o in old(cluster.nodes.slotsCache.Values) || fresh(o)
      ensures Grouped(groups', list', stack, view, i + 1)
      ensures forall j :: 0 <= j < |list'| ==> (j < |list| && list'[j] == list[j]) || fresh(list'[j])
      ensures cluster.nodes.connected + Nodes(list) == old(cluster.nodes.connected) + Nodes(list')
      ensures old(cluster.nodes.connected) <= cluster.nodes.connected && Nodes(list) <= Nodes(list')
    {
      hide Positions, RedisCluster.Ready, MovedView, Grouped, Nodes;
      var node := cluster.Route(stack[i].command.slot);
      if node !in groups {
        cluster.GetRedisConnection(node);
      } else {
        HasGroup(groups, list, stack, view, i, node);
      }
      groups', list' := GroupNext(groups, list, stack, view, i, node);
    }

    /** The first loop: looks every command's slot up and appends the command to its node's group. */
    method GroupByNode(stack: seq<PipelineCommand>, ghost view: View) returns (list: seq<NodeCommands>)
      requires cluster.Ready() && Total(view) && view == cluster.NextView()
      modifies cluster.nodes, cluster.nodes.slotsCache.Values
      ensures cluster.Ready() && (stack != [] ==> cluster.nodes.movedException == None)
      ensures forall o :: o in cluster.nodes.slotsCache.Values ==> o in old(cluster.nodes.slotsCache.Values) || fresh(o)
      ensures Written(list, stack, view, cluster.servers.logs, 0) && Complete(list, stack, view)
      ensures forall j :: 0 <= j < |list| ==> fresh(list[j])
      ensures cluster.nodes.connected == old(cluster.nodes.connected) + Nodes(list)
    {
      hide Positions, RedisCluster.Ready, MovedView, Grouped, Nodes;
      var groups: map<Name, NodeCommands> := map[];
      list := [];
      NothingGrouped(stack, view);
      NoNodes();
      for i := 0 to |stack|
        invariant cluster.Ready() && (i > 0 ==> cluster.nodes.movedException == None)
        invariant forall o :: o in cluster.nodes.slotsCache.Values ==>
            o in old(cluster.nodes.slotsCache.Values) || fresh(o)
        invariant cluster.NextView() == view
        invariant Grouped(groups, list, stack, view, i)
        invariant forall j :: 0 <= j < |list| ==> fresh(list[j])
        invariant cluster.nodes.connected == old(cluster.nodes.connected) + Nodes(list)
      {
        groups, list := RouteNext(groups, list, stack, view, i);
      }
      NotYetWritten(groups, list, stack, view);
    }

    /** The connection of node n holds the first replies for the commands of its group. */
    ghost predicate Holds(group: NodeCommands, start: Logs, cs: seq<Command>, view: View, ps: seq<nat>)
      requires Total(view) && forall k :: 0 <= k < |ps| ==> ps[k] < |cs|
      reads group
    {
      && |group.inbox| == |ps|
      && forall k :: 0 <= k < |ps| ==> group.inbox[k] == FirstReply(start, cs, view, cluster.servers.owner, ps[k])
    }

    /** write(): one node's group. */
    method WriteGroup(group: NodeCommands, stack: seq<PipelineCommand>, ghost view: View, ghost start: Logs,
        ghost written: set<Name>, ghost next: Name)
      requires Total(view) && InPlace(stack) && group.servers == cluster.servers && group.inbox == []
          && group.node !in written
      requires group.commands == PickCommands(stack, Positions(Commands(stack), view, group.node))
      requires cluster.servers.upsets == []
      requires Writing(start, cluster.servers.logs, Commands(stack), view, cluster.servers.owner, written, group.node,
          0)
      modifies group`inbox, cluster.servers, group.commands
      ensures cluster.servers.upsets == [] && cluster.servers.UpsetsOnly()
      ensures Writing(start, cluster.servers.logs, Commands(stack), view, cluster.servers.owner, written + {group.node},
          next, 0)
      ensures Holds(group, start, Commands(stack), view, Positions(Commands(stack), view, group.node))
      ensures forall c :: c in group.commands ==> c.result == Pending
    {
      hide Positions, Writing, ServedAll, ServedReplies;
      ghost var n, logs, owner, cs := group.node, cluster.servers.logs, cluster.servers.owner, Commands(stack);
      ghost var ps := Positions(cs, view, n);
      assert Commands(group.commands) == Pick(cs, ps) == Pick(cs, ps)[..|ps|];
      group.Write();
      GroupServed(start, logs, cs, view, owner, written, n, |ps|);
      GroupWritten(start, cluster.servers.logs, cs, view, owner, written, n, next);
    }

    /** What the write loop has come to after the first k groups. */
    ghost predicate Written(list: seq<NodeCommands>, stack: seq<PipelineCommand>, view: View, start: Logs, k: nat)
      requires Total(view) && k <= |list|
      reads list, stack
    {
      && Groups(list, stack, view)
      && (forall j :: 0 <= j < k ==>
          Holds(list[j], start, Commands(stack), view, Positions(Commands(stack), view, list[j].node)))
      && (forall j :: k <= j < |list| ==> list[j].inbox == [])
      && (forall p :: 0 <= p < |stack| && RouteOf(view, stack[p].command.slot) in Nodes(list[..k]) ==>
          stack[p].result == Pending)
    }

    ghost predicate Groups(list: seq<NodeCommands>, stack: seq<PipelineCommand>, view: View)
      requires Total(view)
      reads list
    {
      && DistinctNodes(list)
      && (forall j :: 0 <= j < |list| ==>
            list[j].servers == cluster.servers
                && list[j].commands == PickCommands(stack, Positions(Commands(stack), view, list[j].node)))
    }

    /** One round of the write loop. */
    method WriteNext(list: seq<NodeCommands>, stack: seq<PipelineCommand>, ghost view: View, ghost start: Logs, k: nat,
        ghost next: Name)
      requires Total(view) && InPlace(stack) && k < |list| && Written(list, stack, view, start, k)
      requires cluster.servers.upsets == []
      requires Writing(start, cluster.servers.logs, Commands(stack), view, cluster.servers.owner, Nodes(list[..k]),
          list[k].node, 0)
      modifies cluster.servers, list, stack
      ensures cluster.servers.upsets == [] && cluster.servers.UpsetsOnly()
      ensures Written(list, stack, view, start, k + 1)
      ensures Writing(start, cluster.servers.logs, Commands(stack), view, cluster.servers.owner, Nodes(list[..k + 1]),
          next, 0)
    {
      hide Positions, Writing, FirstReply, Holds, RouteOf;
      OneMoreNode(list, k);
      WriteGroup(list[k], stack, view, start, Nodes(list[..k]), next);
      forall p | 0 <= p < |stack| && RouteOf(view, stack[p].command.slot) in Nodes(list[..k + 1])
          ensures stack[p].result == Pending {
        InGroup(stack, view, p);
      }
    }

    method WriteAll(list: seq<NodeCommands>, stack: seq<PipelineCommand>, ghost view: View)
      requires Total(view) && InPlace(stack) && Complete(list, stack, view)
      requires cluster.servers.upsets == [] && cluster.servers.UpsetsOnly()
      requires Written(list, stack, view, cluster.servers.logs, 0)
      modifies cluster.servers, list, stack
      ensures cluster.servers.upsets == [] && cluster.servers.UpsetsOnly()
      ensures Written(list, stack, view, old(cluster.servers.logs), |list|)
      ensures Repeating(old(cluster.servers.logs), cluster.servers.logs, Commands(stack), view, cluster.servers.owner,
          0)
    {
      hide Positions, Writing, Repeating, FirstReply, Holds, Written;
      ghost var cs, start, owner := Commands(stack), cluster.servers.logs, cluster.servers.owner;
      if |list| == 0 {
        NothingToSend(start, cs, view, owner);
        return;
      }
      NothingWritten(start, cs, view, owner, list[0].node);
      assert Nodes(list[..0]) == {};
      for k := 0 to |list|
        invariant cluster.servers.upsets == [] && cluster.servers.UpsetsOnly()
        invariant Writing(start, cluster.servers.logs, cs, view, owner, Nodes(list[..k]),
            list[if k < |list| then k else 0].node, 0)
        invariant Written(list, stack, view, start, k)
      {
        WriteNext(list, stack, view, start, k, list[if k + 1 < |list| then k + 1 else 0].node);
      }
      assert list[..|list|] == list;
      WrittenAll(start, cluster.servers.logs, cs, view, owner, Nodes(list), list[0].node);
    }

    lemma {:induction false} ListedGroup(groups: map<Name, NodeCommands>, list: seq<NodeCommands>,
        stack: seq<PipelineCommand>, view: View,
        i: nat, node: Name)
      requires Total(view) && i <= |stack| && Grouped(groups, list, stack, view, i) && node in groups
      ensures groups[node] in list
    {
    }

    lemma {:induction false} NotYetWritten(groups: map<Name, NodeCommands>, list: seq<NodeCommands>,
        stack: seq<PipelineCommand>,
        view: View)
      requires Total(view) && Grouped(groups, list, stack, view, |stack|)
      ensures Written(list, stack, view, cluster.servers.logs, 0) && Complete(list, stack, view)
    {
      assert Commands(stack)[..|stack|] == Commands(stack);
      assert Nodes(list[..0]) == {};
      forall n | n in groups ensures n in Nodes(list) {
        var j :| 0 <= j < |list| && list[j] == groups[n];
        assert list[j].node in Nodes(list);
      }
    }

    /** What a command's result is once the connections of these nodes have been read. */
    function ReadResult(nodes: set<Name>, stack: seq<PipelineCommand>, view: View, start: Logs, p: nat): CommandResult
      requires Total(view) && p < |stack|
    {
      if RouteOf(view, stack[p].command.slot) in nodes
          then Got(FirstReply(start, Commands(stack), view, cluster.servers.owner, p))
      else Pending
    }

    ghost predicate Reading(list: seq<NodeCommands>, stack: seq<PipelineCommand>, view: View, start: Logs, k: nat)
      requires Total(view) && k <= |list|
      reads list, stack
    {
      && Groups(list, stack, view)
      && (forall j :: k <= j < |list| ==>
          Holds(list[j], start, Commands(stack), view, Positions(Commands(stack), view, list[j].node)))
      && (forall p :: 0 <= p < |stack| ==> stack[p].result == ReadResult(Nodes(list[..k]), stack, view, start, p))
    }

    /** read(): one node's group. */
    method ReadGroup(group: NodeCommands, stack: seq<PipelineCommand>, ghost view: View, ghost start: Logs,
        ghost read: set<Name>)
      requires Total(view) && InPlace(stack) && group.node !in read
      requires group.commands == PickCommands(stack, Positions(Commands(stack), view, group.node))
      requires Holds(group, start, Commands(stack), view, Positions(Commands(stack), view, group.node))
      requires forall p :: 0 <= p < |stack| ==> stack[p].result == ReadResult(read, stack, view, start, p)
      modifies group`inbox, group.commands
      ensures forall p :: 0 <= p < |stack| ==> stack[p].result == ReadResult(read + {group.node}, stack, view, start, p)
    {
      hide Positions, FirstReply, RouteOf, PickCommands;
      ghost var n := group.node;
      ghost var ps := Positions(Commands(stack), view, n);
      GroupDistinct(stack, view, n);
      forall c | c in group.commands ensures c.result == Pending {
        var p := PlaceOf(stack, view, n, c);
      }
      group.Read();
      forall p | 0 <= p < |stack|
        ensures stack[p].result == ReadResult(read + {n}, stack, view, start, p)
      {
        InGroup(stack, view, p);
        if RouteOf(view, stack[p].command.slot) == n {
          var k := PlaceIn(stack, view, n, p);
        }
      }
    }

    lemma {:induction false} PlaceOf(stack: seq<PipelineCommand>, view: View, n: Name, c: PipelineCommand)
        returns (p: nat)
      requires Total(view) && c in PickCommands(stack, Positions(Commands(stack), view, n))
      ensures p < |stack| && c == stack[p] && RouteOf(view, stack[p].command.slot) == n
    {
      hide Positions, RouteOf;
      var ps := Positions(Commands(stack), view, n);
      var k :| 0 <= k < |ps| && c == stack[ps[k]];
      p := ps[k];
    }

    lemma {:induction false} PlaceIn(stack: seq<PipelineCommand>, view: View, n: Name, p: nat) returns (k: nat)
      requires Total(view) && p < |stack| && RouteOf(view, stack[p].command.slot) == n
      ensures var ps := Positions(Commands(stack), view, n);
        k < |ps| && ps[k] == p && PickCommands(stack, ps)[k] == stack[p]
    {
      hide Positions, RouteOf;
      var ps := Positions(Commands(stack), view, n);
      assert Commands(stack)[p] == stack[p].command;
      k :| 0 <= k < |ps| && ps[k] == p;
    }

    method ReadNext(list: seq<NodeCommands>, stack: seq<PipelineCommand>, ghost view: View, ghost start: Logs, k: nat)
      requires Total(view) && InPlace(stack) && k < |list| && Reading(list, stack, view, start, k)
      modifies list, stack
      ensures Reading(list, stack, view, start, k + 1)
    {
      hide Positions, FirstReply, RouteOf, Holds, ReadResult;
      OneMoreNode(list, k);
      ReadGroup(list[k], stack, view, start, Nodes(list[..k]));
    }

    method ReadAll(list: seq<NodeCommands>, stack: seq<PipelineCommand>, ghost view: View, ghost start: Logs)
      requires Total(view) && InPlace(stack) && Written(list, stack, view, start, |list|) && Complete(list, stack, view)
      modifies list, stack
      ensures forall p :: 0 <= p < |stack| ==>
        stack[p].result == Got(FirstReply(start, Commands(stack), view, cluster.servers.owner, p))
    {
      hide Positions, FirstReply, Reading, Written;
      AllPending(list, stack, view, start);
      for k := 0 to |list|
        invariant Reading(list, stack, view, start, k)
      {
        ReadNext(list, stack, view, start, k);
      }
      AllRead(list, stack, view, start);
    }

    lemma {:induction false} AllPending(list: seq<NodeCommands>, stack: seq<PipelineCommand>, view: View, start: Logs)
      requires Total(view) && InPlace(stack) && Written(list, stack, view, start, |list|) && Complete(list, stack, view)
      ensures Reading(list, stack, view, start, 0)
    {
      hide Positions, Holds;
      assert Nodes(list[..0]) == {} && list[..|list|] == list;
      forall p | 0 <= p < |stack| ensures stack[p].result == Pending {
        HasPosition(Commands(stack), view, p);
      }
    }

    lemma {:induction false} AllRead(list: seq<NodeCommands>, stack: seq<PipelineCommand>, view: View, start: Logs)
      requires Total(view) && Reading(list, stack, view, start, |list|) && Complete(list, stack, view)
      ensures forall p :: 0 <= p < |stack| ==>
        stack[p].result == Got(FirstReply(start, Commands(stack), view, cluster.servers.owner, p))
    {
      hide Positions, FirstReply;
      assert list[..|list|] == list;
      forall p | 0 <= p < |stack| ensures RouteOf(view, stack[p].command.slot) in Nodes(list) {
        HasPosition(Commands(stack), view, p);
      }
    }

    /** The commands whose first reply allows another attempt, in order. */
    method ToRepeat(stack: seq<PipelineCommand>, ghost view: View, ghost start: Logs)
        returns (attempt: seq<PipelineCommand>)
      requires Total(view) && FirstRound(stack, view, start)
      ensures attempt == PickCommands(stack, MisroutedPositions(Commands(stack), view, cluster.servers.owner))
    {
      hide FirstReply, Misrouted;
      ghost var cs, owner := Commands(stack), cluster.servers.owner;
      attempt := [];
      for i := 0 to |stack|
        invariant attempt == PickCommands(stack, MisroutedPositions(cs[..i], view, owner))
      {
        FirstReplyRetryable(start, cs, view, owner, i);
        OneMoreMisrouted(cs, view, owner, i);
        if Retryable(stack[i].result) {
          attempt := attempt + [stack[i]];
        }
      }
      assert cs[..|stack|] == cs;
    }

    ghost predicate FirstRound(stack: seq<PipelineCommand>, view: View, start: Logs)
      requires Total(view)
      reads stack
    {
      forall p :: 0 <= p < |stack| ==>
          stack[p].result == Got(FirstReply(start, Commands(stack), view, cluster.servers.owner, p))
    }

    /** The results once the misrouted commands before `bound` have been repeated. */
    ghost predicate Repeated(stack: seq<PipelineCommand>, view: View, start: Logs, bound: nat)
      requires Total(view)
      reads stack
    {
      var cs, owner := Commands(stack), cluster.servers.owner;
      forall p :: 0 <= p < |stack| ==> stack[p].result == RepeatedResult(start, cs, view, owner, bound, p)
    }

    /** One round of the last loop. */
    method RepeatNext(c: PipelineCommand, stack: seq<PipelineCommand>, ghost view: View, ghost start: Logs,
        ghost p: nat)
      requires Total(view) && InPlace(stack) && cluster.Ready() && cluster.Settled()
      requires p < |stack| && c == stack[p] && Misrouted(Commands(stack), view, cluster.servers.owner, p)
      requires Repeated(stack, view, start, p)
          && Repeating(start, cluster.servers.logs, Commands(stack), view, cluster.servers.owner, p)
      modifies cluster, cluster.nodes, cluster.nodes.slotsCache.Values, cluster.servers, c
      ensures cluster.Ready() && cluster.Settled()
      ensures forall o :: o in cluster.nodes.slotsCache.Values ==> o in old(cluster.nodes.slotsCache.Values) || fresh(o)
      ensures Repeated(stack, view, start, p + 1)
          && Repeating(start, cluster.servers.logs, Commands(stack), view, cluster.servers.owner, p + 1)
      ensures old(cluster.OwnersRouted()) ==>
        cluster.OwnersRouted() && |cluster.servers.sent| == |old(cluster.servers.sent)| + 1
    {
      hide Repeating, FirstReply, Due, Misrouted, RedisCluster.Ready, WellFormed, Executed, LogOf, Tried, AllSends,
          RedisCluster.NextView;
      ghost var logs := cluster.servers.logs;
      var result;
      ghost var rounds;
      result, rounds := cluster.ExecuteCommand(c.command);
      c.result := match result case Answer(history) => Got(Value(history)) case Raised(failure) => Failed(failure);
      RepeatOne(start, logs, Commands(stack), view, cluster.servers.owner, p);
      forall q | 0 <= q < |stack|
        ensures stack[q].result == RepeatedResult(start, Commands(stack), view, cluster.servers.owner, p + 1, q)
      {
        assert q != p ==> stack[q].position != stack[p].position;
      }
    }

    /** The last loop: sends each redirected command on its own, in order of position. */
    /** Redirections count as one MOVED, however many they are, and may cause a reload. */
    method NoteRedirections()
      requires cluster.Ready() && cluster.Settled()
      modifies cluster, cluster.nodes
      ensures cluster.Ready() && cluster.Settled()
      ensures forall o :: o in cluster.nodes.slotsCache.Values ==> o in old(cluster.nodes.slotsCache.Values) || fresh(o)
      ensures cluster.reinitializeCounter == old(cluster.reinitializeCounter) + 1
      ensures if old(cluster.NextMovedReloads()) then cluster.OwnersRouted()
              else cluster.nodes.View() == old(cluster.nodes.View())
    {
      hide RedisCluster.Ready, RedisCluster.OwnersRouted, RedisCluster.Heads, NodesManager.View, Routes;
      TableReady();
      cluster.reinitializeCounter := cluster.reinitializeCounter + 1;
      ReadyTable();
      if cluster.ShouldReinitialize() {
        cluster.Reload();
      }
    }

    /** What has been sent, the slot table, and the number of MOVEDs that have been noted. */
    ghost function Asked(): (seq<Sending>, View, nat)
      reads cluster, cluster.servers, cluster.nodes, cluster.nodes.slotsCache.Values
    {
      (cluster.servers.sent, cluster.nodes.View(), cluster.reinitializeCounter)
    }

    method RepeatEach(attempt: seq<PipelineCommand>, stack: seq<PipelineCommand>, ghost view: View, ghost start: Logs)
      requires Total(view) && InPlace(stack) && cluster.Ready() && cluster.Settled()
      requires attempt == PickCommands(stack, MisroutedPositions(Commands(stack), view, cluster.servers.owner))
      requires FirstRound(stack, view, start)
      requires Repeating(start, cluster.servers.logs, Commands(stack), view, cluster.servers.owner, 0)
      modifies cluster, cluster.nodes, cluster.nodes.slotsCache.Values, cluster.servers, stack
      ensures cluster.Ready() && cluster.Settled()
      ensures forall o :: o in cluster.nodes.slotsCache.Values ==> o in old(cluster.nodes.slotsCache.Values) || fresh(o)
      ensures forall p :: 0 <= p < |stack| ==> stack[p].result == Got(Due(start, Commands(stack), p))
      ensures Repeating(start, cluster.servers.logs, Commands(stack), view, cluster.servers.owner, |stack|)
      ensures old(cluster.OwnersRouted()) ==> |cluster.servers.sent| == |old(cluster.servers.sent)| + |attempt|
      ensures attempt == [] ==> Asked() == old(Asked())
    {
      hide Repeating, FirstReply, Due, Misrouted, MisroutedPositions, RedisCluster.Ready, WellFormed, Repeated,
          FirstRound, RedisCluster.OwnersRouted;
      NoneRepeated(stack, view, start);
      ghost var cs, owner := Commands(stack), cluster.servers.owner;
      ghost var ps := MisroutedPositions(cs, view, owner);
      ghost var from: nat := 0;
      for k := 0 to |attempt|
        invariant from == (if k == 0 then 0 else ps[k - 1] + 1) && from <= |stack|
        invariant cluster.Ready() && cluster.Settled()
        invariant forall o :: o in cluster.nodes.slotsCache.Values ==>
            o in old(cluster.nodes.slotsCache.Values) || fresh(o)
        invariant Repeated(stack, view, start, from)
        invariant Repeating(start, cluster.servers.logs, cs, view, owner, from)
        invariant old(cluster.OwnersRouted()) ==>
          cluster.OwnersRouted() && |cluster.servers.sent| == |old(cluster.servers.sent)| + k
        invariant k == 0 ==> Asked() == old(Asked())
      {
        SkipRouted(start, cluster.servers.logs, cs, view, owner, k);
        ResultsSkipped(stack, view, start, from, ps[k]);
        RepeatNext(attempt[k], stack, view, start, ps[k]);
        from := ps[k] + 1;
      }
      SkipRouted(start, cluster.servers.logs, cs, view, owner, |ps|);
      ResultsSkipped(stack, view, start, from, |stack|);
      AllRepeated(stack, view, start);
    }

    lemma {:induction false} NoneRepeated(stack: seq<PipelineCommand>, view: View, start: Logs)
      requires Total(view) && FirstRound(stack, view, start)
      ensures Repeated(stack, view, start, 0)
    {
    }

    lemma {:induction false} ResultsSkipped(stack: seq<PipelineCommand>, view: View, start: Logs, from: nat, to: nat)
      requires Total(view) && from <= to <= |stack| && Repeated(stack, view, start, from)
      requires forall p :: from <= p < to ==>
        FirstReply(start, Commands(stack), view, cluster.servers.owner, p) == Due(start, Commands(stack), p)
      ensures Repeated(stack, view, start, to)
    {
    }

    lemma {:induction false} AllRepeated(stack: seq<PipelineCommand>, view: View, start: Logs)
      requires Total(view) && Repeated(stack, view, start, |stack|)
      ensures forall p :: 0 <= p < |stack| ==> stack[p].result == Got(Due(start, Commands(stack), p))
    {
    }

    /** The first round: every command is sent once, to the node that the slot table names. */
    method SendOnce(stack: seq<PipelineCommand>, ghost view: View)
      requires InPlace(stack) && stack != [] && cluster.Ready() && cluster.servers.upsets == []
      requires Total(view) && view == cluster.NextView()
      modifies cluster.nodes, cluster.nodes.slotsCache.Values, cluster.servers, stack
      ensures cluster.Ready() && cluster.Settled()
      ensures forall o :: o in cluster.nodes.slotsCache.Values ==> o in old(cluster.nodes.slotsCache.Values) || fresh(o)
      ensures FirstRound(stack, view, old(cluster.servers.logs))
      ensures Repeating(old(cluster.servers.logs), cluster.servers.logs, Commands(stack), view, cluster.servers.owner,
          0)
    {
      hide FirstReply, RedisCluster.Ready, Written, Complete, Repeating, MovedView, FirstRound;
      ghost var start := cluster.servers.logs;
      ReadyView();
      var list := GroupByNode(stack, view);
      TableReady();
      WriteAll(list, stack, view);
      ReadAll(list, stack, view, start);
      FirstRoundDone(stack, view, start);
      ReadyTable();
    }

    /** The second round: what was redirected is sent again, one by one. */
    method RepeatRedirected(stack: seq<PipelineCommand>, ghost view: View, ghost start: Logs)
      requires InPlace(stack) && Total(view) && cluster.Ready() && cluster.Settled()
      requires FirstRound(stack, view, start)
      requires Repeating(start, cluster.servers.logs, Commands(stack), view, cluster.servers.owner, 0)
      modifies cluster, cluster.nodes, cluster.nodes.slotsCache.Values, cluster.servers, stack
      ensures cluster.Ready() && cluster.Settled()
      ensures forall p :: 0 <= p < |stack| ==> stack[p].result == Got(Due(start, Commands(stack), p))
      ensures Repeating(start, cluster.servers.logs, Commands(stack), view, cluster.servers.owner, |stack|)
      ensures var again := MisroutedPositions(Commands(stack), view, cluster.servers.owner);
        && (again != [] && old(cluster.NextMovedReloads()) ==>
              |cluster.servers.sent| == |old(cluster.servers.sent)| + |again|)
        && (again == [] ==>
              Asked() == old(Asked()))
    {
      hide Due, RedisCluster.Ready, Repeating, MisroutedPositions, FirstRound, RedisCluster.OwnersRouted;
      var attempt := ToRepeat(stack, view, start);
      if attempt != [] {
        NoteRedirections();
      }
      RepeatEach(attempt, stack, view, start);
    }

    /**
     _send_cluster_commands: whatever the slot table says, the pipeline returns at every position the reply, and
     leaves every slot in the state, that running the commands one by one in order would have given.
     */
    method SendClusterCommands(stack: seq<PipelineCommand>) returns (response: seq<CommandResult>)
      requires InPlace(stack) && cluster.Ready() && cluster.servers.upsets == []
      modifies cluster, cluster.nodes, cluster.nodes.slotsCache.Values, cluster.servers, stack
      ensures cluster.Ready() && cluster.servers.upsets == []
      ensures |response| == |stack| && forall p :: 0 <= p < |stack| ==>
        response[p] == Got(RepliesInOrder(old(cluster.servers.logs), Commands(stack))[p])
      ensures forall s: Slot ::
          LogOf(cluster.servers.logs, s) == LogOf(RunAll(old(cluster.servers.logs), Commands(stack)), s)
    {
      hide Due, RedisCluster.Ready, RepliesInOrder, Repeating, RunAll, MovedView, FirstRound, LogOf;
      response := [];
      if |stack| == 0 {
        NothingRun(cluster.servers.logs);
        return;
      }
      ghost var start, cs, view := cluster.servers.logs, Commands(stack), cluster.NextView();
      ReadyView();
      SendOnce(stack, view);
      RepeatRedirected(stack, view, start);
      for i := 0 to |stack|
        invariant |response| == i && forall p :: 0 <= p < i ==> response[p] == stack[p].result
      {
        response := response + [stack[i].result];
      }
      DueInOrder(start, cs);
      RepeatedAll(start, cluster.servers.logs, cs, view, cluster.servers.owner);
    }

    /** execute(): sends the whole stack, and empties it. */
    method Execute() returns (response: seq<CommandResult>)
      requires InPlace(commandStack) && cluster.Ready() && cluster.servers.upsets == []
      modifies this, cluster, cluster.nodes, cluster.nodes.slotsCache.Values, cluster.servers, commandStack
      ensures commandStack == [] && cluster.Ready()
      ensures var cs, start := old(Commands(commandStack)), old(cluster.servers.logs);
        && |response| == |cs| && (forall p :: 0 <= p < |cs| ==> response[p] == Got(RepliesInOrder(start, cs)[p]))
        && forall s: Slot :: LogOf(cluster.servers.logs, s) == LogOf(RunAll(start, cs), s)
    {
      var stack := commandStack;
      response := SendClusterCommands(stack);
      commandStack := [];
    }

    lemma {:induction false} ReadyView()
      requires cluster.Ready()
      ensures Total(cluster.NextView()) && cluster.servers.UpsetsOnly()
    {
    }

    lemma {:induction false} TableReady()
      requires cluster.Ready()
      ensures forall s: Slot :: s in cluster.nodes.slotsCache
      ensures Routes(cluster.nodes.View()) && cluster.servers.Truthful()
    {
    }

    lemma {:induction false} ReadyTable()
      requires forall s: Slot :: s in cluster.nodes.slotsCache
      requires Routes(cluster.nodes.View()) && cluster.servers.Truthful() && cluster.servers.UpsetsOnly()
      ensures cluster.Ready()
    {
    }

    lemma {:induction false} NothingRun(start: Logs)
      ensures RunAll(start, []) == start && RepliesInOrder(start, []) == []
    {
    }

    lemma {:induction false} FirstRoundDone(stack: seq<PipelineCommand>, view: View, start: Logs)
      requires Total(view) && forall p :: 0 <= p < |stack| ==>
        stack[p].result == Got(FirstReply(start, Commands(stack), view, cluster.servers.owner, p))
      ensures FirstRound(stack, view, start)
    {
    }

    lemma {:induction false} NothingGrouped(stack: seq<PipelineCommand>, view: View)
      requires Total(view)
      ensures Grouped(map[], [], stack, view, 0)
    {
    }
  }

  function RepeatedResult(start: Logs, cs: seq<Command>, view: View, owner: Slot -> Name, bound: nat,
      p: nat): CommandResult
    requires Total(view) && p < |cs|
  {
    Got(if p < bound then Due(start, cs, p) else FirstReply(start, cs, view, owner, p))
  }

  /** isinstance(result, ERRORS_ALLOW_RETRY) */
  predicate Retryable(result: CommandResult) {
    result.Got? && (result.reply.ConnectionLost? || result.reply.MovedTo? || result.reply.AskAt?
        || result.reply.TryAgain?)
  }

  function MisroutedPositions(cs: seq<Command>, view: View, owner: Slot -> Name): (ps: seq<nat>)
    requires Total(view)
    ensures forall k :: 0 <= k < |ps| ==> ps[k] < |cs| && Misrouted(cs, view, owner, ps[k])
    ensures forall j, k :: 0 <= j < k < |ps| ==> ps[j] < ps[k]
    ensures forall q :: 0 <= q < |cs| && Misrouted(cs, view, owner, q) ==> q in ps
  {
    if cs == [] then []
    else
      assert forall q :: 0 <= q < |cs| - 1 ==>
          Misrouted(cs[..|cs| - 1], view, owner, q) == Misrouted(cs, view, owner, q);
      MisroutedPositions(cs[..|cs| - 1], view, owner) + if Misrouted(cs, view, owner, |cs| - 1) then [|cs| - 1] else []
  }

  lemma {:induction false} OneMoreMisrouted(cs: seq<Command>, view: View, owner: Slot -> Name, i: nat)
    requires Total(view) && i < |cs|
    ensures MisroutedPositions(cs[..i + 1], view, owner) ==
      MisroutedPositions(cs[..i], view, owner) + if Misrouted(cs, view, owner, i) then [i] else []
  {
    assert cs[..i + 1][..i] == cs[..i];
  }

  lemma {:induction false} FirstReplyRetryable(start: Logs, cs: seq<Command>, view: View, owner: Slot -> Name, p: nat)
    requires Total(view) && p < |cs|
    ensures Retryable(Got(FirstReply(start, cs, view, owner, p))) <==> Misrouted(cs, view, owner, p)
    ensures !Misrouted(cs, view, owner, p) ==> FirstReply(start, cs, view, owner, p) == Due(start, cs, p)
  {
  }

  /** Between two repeated commands every command has its reply already. */
  lemma {:induction false} SkipRouted(start: Logs, logs: Logs, cs: seq<Command>, view: View, owner: Slot -> Name,
      k: nat)
    requires Total(view) && k <= |MisroutedPositions(cs, view, owner)|
    requires var ps := MisroutedPositions(cs, view, owner);
      Repeating(start, logs, cs, view, owner, if k == 0 then 0 else ps[k - 1] + 1)
    ensures var ps := MisroutedPositions(cs, view, owner);
      var from, to := if k == 0 then 0 else ps[k - 1] + 1, if k < |ps| then ps[k] else |cs|;
      from <= to && Repeating(start, logs, cs, view, owner, to) &&
      forall p :: from <= p < to ==>
          !Misrouted(cs, view, owner, p) && FirstReply(start, cs, view, owner, p) == Due(start, cs, p)
  {
    hide MisroutedPositions, Repeating, Misrouted, FirstReply, Due;
    var ps := MisroutedPositions(cs, view, owner);
    var from, to := if k == 0 then 0 else ps[k - 1] + 1, if k < |ps| then ps[k] else |cs|;
    forall p | from <= p < to ensures !Misrouted(cs, view, owner, p) {
      assert forall j :: 0 <= j < |ps| ==> if j < k then ps[j] <= ps[k - 1] else ps[k] <= ps[j];
      assert p !in ps;
    }
    forall p | from <= p < to ensures FirstReply(start, cs, view, owner, p) == Due(start, cs, p) {
      FirstReplyRetryable(start, cs, view, owner, p);
    }
    RepeatSkips(start, logs, cs, view, owner, from, to);
  }

  function Nodes(list: seq<NodeCommands>): set<Name> {
    set j | 0 <= j < |list| :: list[j].node
  }

  lemma {:induction false} NoNodes()
    ensures Nodes([]) == {}
  {
  }

  lemma {:induction false} GroupAppended(list: seq<NodeCommands>, group: NodeCommands)
    ensures Nodes(list + [group]) == Nodes(list) + {group.node}
  {
    var all := list + [group];
    assert all[|list|].node == group.node;
    assert forall j :: 0 <= j < |list| ==> all[j] == list[j];
    forall n | n in Nodes(list) ensures n in Nodes(all) {
      var j :| 0 <= j < |list| && list[j].node == n;
      assert all[j].node == n;
    }
  }

  predicate DistinctNodes(list: seq<NodeCommands>) {
    forall i, j :: 0 <= i < j < |list| ==> list[i].node != list[j].node
  }

  /** Every node that commands are routed to has a group. */
  ghost predicate Complete(list: seq<NodeCommands>, stack: seq<PipelineCommand>, view: View)
    requires Total(view)
  {
    forall n :: n !in Nodes(list) ==> Positions(Commands(stack), view, n) == []
  }

  lemma {:induction false} OneMoreNode(list: seq<NodeCommands>, k: nat)
    requires k < |list|
    ensures Nodes(list[..k + 1]) == Nodes(list[..k]) + {list[k].node}
    ensures DistinctNodes(list) ==> list[k].node !in Nodes(list[..k])
  {
  }

  lemma {:induction false} InGroup(stack: seq<PipelineCommand>, view: View, p: nat)
    requires Total(view) && InPlace(stack) && p < |stack|
    ensures forall n :: stack[p] in PickCommands(stack, Positions(Commands(stack), view, n)) <==>
        n == RouteOf(view, stack[p].command.slot)
    ensures forall n, j ::
      0 <= j < |Positions(Commands(stack), view, n)| && Positions(Commands(stack), view, n)[j] == p ==>
        PickCommands(stack, Positions(Commands(stack), view, n))[j] == stack[p]
  {
    hide Positions;
    var cs, m := Commands(stack), RouteOf(view, stack[p].command.slot);
    var ps := Positions(cs, view, m);
    assert cs[p] == stack[p].command && p in ps;
    var k :| 0 <= k < |ps| && ps[k] == p;
    assert PickCommands(stack, ps)[k] == stack[p];
    forall n | stack[p] in PickCommands(stack, Positions(cs, view, n)) ensures n == m {
      var qs := Positions(cs, view, n);
      var j :| 0 <= j < |qs| && PickCommands(stack, qs)[j] == stack[p];
      assert stack[qs[j]].position == p;
    }
  }

  lemma {:induction false} GroupDistinct(stack: seq<PipelineCommand>, view: View, n: Name)
    requires Total(view) && InPlace(stack)
    ensures var group := PickCommands(stack, Positions(Commands(stack), view, n));
      forall j, k :: 0 <= j < k < |group| ==> group[j] != group[k]
  {
  }

  lemma {:induction false} NothingToSend(start: Logs, cs: seq<Command>, view: View, owner: Slot -> Name)
    requires Total(view) && forall n :: Positions(cs, view, n) == []
    ensures cs == [] && Repeating(start, start, cs, view, owner, 0)
  {
    if cs != [] {
      HasPosition(cs, view, 0);
    }
  }

  lemma {:induction false} HasPosition(cs: seq<Command>, view: View, p: nat)
    requires Total(view) && p < |cs|
    ensures Positions(cs, view, RouteOf(view, cs[p].slot)) != []
  {
  }

  lemma {:induction false} NothingWritten(start: Logs, cs: seq<Command>, view: View, owner: Slot -> Name, n: Name)
    requires Total(view)
    ensures Writing(start, start, cs, view, owner, {}, n, 0)
  {
  }

  /** When every group has been written, no correctly routed command is left. */
  lemma {:induction false} WrittenAll(start: Logs, logs: Logs, cs: seq<Command>, view: View, owner: Slot -> Name,
      written: set<Name>,
      n: Name)
    requires Total(view) && Writing(start, logs, cs, view, owner, written, n, 0)
    requires forall m :: m !in written ==> Positions(cs, view, m) == []
    ensures Repeating(start, logs, cs, view, owner, 0)
  {
    hide Positions, OfSlot;
    forall s: Slot
      ensures LogOf(logs, s) == LogOf(start, s) + OfSlot(if RouteOf(view, s) == owner(s) then cs else cs[..0], s)
    {
      NoneBeforeFirst(cs, s);
      if RouteOf(view, s) !in written {
        NoneRouted(cs, view, s);
      }
    }
  }

  lemma {:induction false} NoneBeforeFirst(cs: seq<Command>, s: Slot)
    ensures OfSlot(cs[..0], s) == []
  {
  }

  lemma {:induction false} NoneRouted(cs: seq<Command>, view: View, s: Slot)
    requires Total(view) && Positions(cs, view, RouteOf(view, s)) == []
    ensures OfSlot(cs, s) == []
  {
    hide Positions;
    forall q | 0 <= q < |cs| ensures cs[q].slot != s {
      if cs[q].slot == s {
        HasPosition(cs, view, q);
      }
    }
    NoneOfSlot(cs, s, 0, |cs|);
    assert cs[..|cs|] == cs;
  }

  lemma {:induction false} OneMorePosition(cs: seq<Command>, view: View, n: Name, i: nat)
    requires Total(view) && i < |cs|
    ensures Positions(cs[..i + 1], view, n) ==
      Positions(cs[..i], view, n) + if RouteOf(view, cs[i].slot) == n then [i] else []
  {
    assert cs[..i + 1][..i] == cs[..i];
  }
}
