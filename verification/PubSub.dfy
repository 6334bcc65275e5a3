/** Publish/subscribe bookkeeping: what the client thinks it is subscribed to, against what the server does. */
module PubSubs {
  import opened Helpers

  datatype Kind = Channel | Pattern | ShardChannel

  datatype Topic = Topic(kind: Kind, name: string)

  /** A callable, or None when messages are to be returned to the caller. */
  type Handler = Option<nat>

  datatype Message =
    | SubAck(topic: Topic)
    | UnsubAck(unsubscribed: Option<Topic>)
    | Published(to: Topic, data: string)
    | Failure

  datatype Outcome =
    | Called(handler: nat, message: Message)
    | Returned(message: Message)
    | Ignored
    | Nothing
    | Raised
    | Stuck

  /** How a call ends; one that waits for a lock it holds itself never does. */
  datatype CallEnd = Completes | Raises | Blocks

  /** Both sides: the client's bookkeeping, the server's subscriptions of this connection, and what is under way. */
  datatype State = State(
    channels: map<Topic, Handler>, pending: set<Topic>, subscribed: bool,
    up: bool, subs: set<Topic>, stream: seq<Message>)

  /**
   What happens. A call is `resent` when its send found the connection lost and went out on a new one; a read
   that finds it lost reconnects.
   */
  datatype Op =
    | Subscribe(kind: Kind, args: seq<(string, Handler)>, resent: bool)
    | Unsubscribe(kind: Kind, names: Option<seq<string>>, resent: bool)
    | UnsubscribeFails(kind: Kind, names: Option<seq<string>>)
    | GetMessage
    | Publish(topic: Topic, data: string)
    | Lose
    | Reconnect
    | ReconnectFails

  const INITIAL := State(map[], {}, false, true, {}, [])

  function OfKind(topics: set<Topic>, kind: Kind): set<Topic> {
    set t | t in topics && t.kind == kind
  }

  function Topics(kind: Kind, names: seq<string>): set<Topic> {
    set i | 0 <= i < |names| :: Topic(kind, names[i])
  }

  /** The dict of the arguments of a subscribe call: a later argument replaces an earlier one. */
  function NewChannels(kind: Kind, args: seq<(string, Handler)>): map<Topic, Handler> {
    if args == [] then map[]
    else NewChannels(kind, args[..|args| - 1])[Topic(kind, args[|args| - 1].0) := args[|args| - 1].1]
  }

  /** What was appended to the stream, in whatever order the server chose. */
  predicate Sent(before: seq<Message>, after: seq<Message>, messages: set<Message>) {
    before <= after && (set m | m in after[|before|..]) == messages
  }

  function SubAcks(topics: set<Topic>): set<Message> {
    if topics == {} then {Failure} else set t | t in topics :: SubAck(t)
  }

  /** What a server with these subscriptions unsubscribes: the named topics, or without names all of the kind. */
  function ServerTargets(subs: set<Topic>, kind: Kind, names: seq<string>): set<Topic> {
    if names == [] then OfKind(subs, kind) else Topics(kind, names)
  }

  function UnsubAcks(topics: set<Topic>): set<Message> {
    if topics == {} then {UnsubAck(None)} else set t | t in topics :: UnsubAck(Some(t))
  }

  /** What the client marks: the named topics, or all it knows of the kind when no argument was given. */
  function ClientTargets(channels: map<Topic, Handler>, kind: Kind, names: Option<seq<string>>): set<Topic> {
    if names.None? then OfKind(channels.Keys, kind) else Topics(kind, names.value)
  }

  /** The client's side of one message. */
  function Handled(s: State, m: Message): State {
    if !m.UnsubAck? then s
    else
      var gone := if m.unsubscribed.Some? then {m.unsubscribed.value} * s.pending else {};
      s.(pending := s.pending - gone, channels := s.channels - gone,
         subscribed := s.subscribed && s.channels - gone != map[])
  }

  /** The connection is gone, and with it what the server kept and sent. */
  function Lost(s: State): State {
    s.(up := false, subs := {}, stream := [])
  }

  predicate Next(s: State, op: Op, s': State) {
    match op
    case Subscribe(kind, args, resent) =>
      var added := NewChannels(kind, args);
      && (if resent then s.channels == map[] else s.up)
      && s'.channels == s.channels + added && s'.subscribed && s'.up
      && s'.pending == (if resent then {} else s.pending) - added.Keys
      && s'.subs == (if resent then {} else s.subs) + added.Keys
      && Sent(if resent then [] else s.stream, s'.stream, SubAcks(added.Keys))
    case Unsubscribe(kind, names, resent) =>
      var dropped := ServerTargets(if resent then {} else s.subs, kind, if names.None? then [] else names.value);
      && (if resent then s.channels == map[] else s.up)
      && s'.channels == s.channels && s'.subscribed == s.subscribed && s'.up
      && s'.pending == (if resent then {} else s.pending + ClientTargets(s.channels, kind, names))
      && s'.subs == (if resent then {} else s.subs) - dropped
      && Sent(if resent then [] else s.stream, s'.stream, UnsubAcks(dropped))
    case UnsubscribeFails(kind, names) =>
      s' == Lost(s).(pending := s.pending + ClientTargets(s.channels, kind, names))
    case GetMessage =>
      && (s.up || !s.subscribed)
      && s' == if !s.subscribed || s.stream == [] then s else Handled(s, s.stream[0]).(stream := s.stream[1..])
    case Publish(topic, data) =>
      s' == s.(stream := s.stream + if topic in s.subs then [Published(topic, data)] else [])
    case Lose => s' == Lost(s)
    case Reconnect =>
      && s'.channels == s.channels && s'.pending == {} && s'.subscribed == s.subscribed && s'.up
      && s'.subs == s.channels.Keys && Sent([], s'.stream, set t | t in s.channels :: SubAck(t))
    case ReconnectFails => s' == Lost(s).(pending := {})
  }

  ghost predicate Trace(states: seq<State>, ops: seq<Op>) {
    && |states| == |ops| + 1 && states[0] == INITIAL
    && forall i :: 0 <= i < |ops| ==> Next(states[i], ops[i], states[i + 1])
  }

  /**
   While there is a connection, the server has exactly the client's channels that are not being unsubscribed,
   and those have an answer under way.
   */
  ghost predicate Agreement(s: State) {
    && (s.up ==> s.subs == s.channels.Keys - s.pending)
    && (s.up ==> forall t :: t in s.pending ==> UnsubAck(Some(t)) in s.stream)
    && (s.channels != map[] ==> s.subscribed) && (!s.up ==> s.subs == {} && s.stream == [])
  }

  /** What the client keeps when everything under way has arrived. */
  function Live(s: State): map<Topic, Handler> {
    s.channels - s.pending
  }

  /**
   unsubscribe([]) drops every topic of the kind at the server, and the client marks none. That does no harm
   if the client has no topic of the kind but those it is already unsubscribing.
   */
  predicate Harmless(s: State, op: Op) {
    op.Unsubscribe? && op.names == Some([]) ==> OfKind(Live(s).Keys, op.kind) == {}
  }

  ghost predicate HarmlessRun(states: seq<State>, ops: seq<Op>)
    requires |ops| <= |states|
  {
    forall i :: 0 <= i < |ops| ==> Harmless(states[i], ops[i])
  }

  lemma {:induction false} SentMessages(before: seq<Message>, after: seq<Message>, messages: set<Message>)
    requires Sent(before, after, messages)
    ensures forall m :: m in after <==> m in before || m in messages
  {
  }

  lemma {:induction false} SentTwice(a: seq<Message>, b: seq<Message>, c: seq<Message>, x: set<Message>,
      y: set<Message>)
    requires Sent(a, b, x) && Sent(b, c, y)
    ensures Sent(a, c, x + y)
  {
  }

  lemma {:induction false} StepAgrees(s: State, op: Op, s': State)
    requires Agreement(s) && Next(s, op, s')
    ensures Agreement(s') <==> Harmless(s, op)
  {
    match op {
      case Subscribe(kind, args, resent) =>
        SentMessages(if resent then [] else s.stream, s'.stream, SubAcks(NewChannels(kind, args).Keys));
      case Unsubscribe(kind, names, resent) =>
        UnsubscribeAgrees(s, kind, names, resent, s');
      case GetMessage =>
        if s.subscribed && s.stream != [] {
          forall t | t in s'.pending ensures UnsubAck(Some(t)) in s'.stream {
            assert s.stream == [s.stream[0]] + s.stream[1..];
          }
        }
      case _ =>
    }
  }

  lemma {:induction false} UnsubscribeAgrees(s: State, kind: Kind, names: Option<seq<string>>, resent: bool, s': State)
    requires Agreement(s) && Next(s, Unsubscribe(kind, names, resent), s')
    ensures Agreement(s') <==> Harmless(s, Unsubscribe(kind, names, resent))
  {
    var subs := if resent then {} else s.subs;
    var dropped := ServerTargets(subs, kind, if names.None? then [] else names.value);
    assert Live(s).Keys == s.channels.Keys - s.pending;
    SentMessages(if resent then [] else s.stream, s'.stream, UnsubAcks(dropped));
    forall t | t in s'.pending ensures UnsubAck(Some(t)) in s'.stream || names == Some([]) {
      if t in dropped {
        assert UnsubAck(Some(t)) in UnsubAcks(dropped);
      }
    }
    if names == Some([]) {
      assert Topics(kind, []) == {};
      if t :| t in OfKind(Live(s).Keys, kind) {
        assert t in s.subs && t !in s'.subs;
      }
    }
  }

  /**
   Over every run, with reconnects anywhere, the two sides agree at every moment, up to what is still under way,
   exactly when every unsubscribe with an empty list does no harm.
   */
  lemma {:induction false} RunsAgree(states: seq<State>, ops: seq<Op>)
    requires Trace(states, ops)
    ensures (forall i :: 0 <= i <= |ops| ==> Agreement(states[i])) <==> HarmlessRun(states, ops)
  {
    hide Next, Agreement, Harmless;
    if ops == [] {
      StartsInAgreement();
    } else {
      var n := |ops| - 1;
      assert Trace(states[..|ops|], ops[..n]);
      RunsAgree(states[..|ops|], ops[..n]);
      assert Next(states[n], ops[n], states[n + 1]);
      assert forall i :: 0 <= i <= n ==> states[..|ops|][i] == states[i];
      assert forall i :: 0 <= i < n ==> ops[..n][i] == ops[i];
      if Agreement(states[n]) {
        StepAgrees(states[n], ops[n], states[n + 1]);
      }
    }
  }

  lemma {:induction false} StartsInAgreement()
    ensures Agreement(INITIAL)
  {
  }

  /**
   In any run, while there is a connection and no answer is outstanding, or the client stopped
   listening, its channels are the server's subscriptions.
   */
  lemma {:induction false} QuietAgreement(states: seq<State>, ops: seq<Op>)
    requires Trace(states, ops) && HarmlessRun(states, ops)
    requires states[|ops|].up
    requires (forall t :: UnsubAck(Some(t)) !in states[|ops|].stream) || !states[|ops|].subscribed
    ensures states[|ops|].channels.Keys == states[|ops|].subs
  {
    RunsAgree(states, ops);
  }

  // ---------------------------------------------------------------- what the caller asked for

  /** The channels whose last operation was a subscribe, with the handlers it gave. */
  function Wanted(ops: seq<Op>): map<Topic, Handler> {
    if ops == [] then map[]
    else
      var before, op := Wanted(ops[..|ops| - 1]), ops[|ops| - 1];
      match op
      case Subscribe(kind, args, _) => before + NewChannels(kind, args)
      case Unsubscribe(kind, names, _) => before - ClientTargets(before, kind, names)
      case UnsubscribeFails(kind, names) => before - ClientTargets(before, kind, names)
      case _ => before
  }

  predicate Subscribes(op: Op, t: Topic) {
    op.Subscribe? && t in NewChannels(op.kind, op.args)
  }

  predicate Unsubscribes(op: Op, t: Topic) {
    (op.Unsubscribe? || op.UnsubscribeFails?) && t.kind == op.kind && (op.names.Some? ==> t.name in op.names.value)
  }

  lemma {:induction false} TopicNamed(kind: Kind, names: seq<string>, t: Topic)
    ensures t in Topics(kind, names) <==> t.kind == kind && t.name in names
  {
  }

  lemma {:induction false} WantedIsLastSubscribe(ops: seq<Op>, t: Topic)
    ensures t in Wanted(ops) <==>
      exists i :: 0 <= i < |ops| && Subscribes(ops[i], t) && forall j :: i < j < |ops| ==> !Unsubscribes(ops[j], t)
  {
    if ops != [] {
      var init, op := ops[..|ops| - 1], ops[|ops| - 1];
      WantedIsLastSubscribe(init, t);
      if (op.Unsubscribe? || op.UnsubscribeFails?) && op.names.Some? {
        TopicNamed(op.kind, op.names.value, t);
      }
      assert Unsubscribes(op, t) ==> t !in Wanted(ops);
      if t in Wanted(ops) && !Subscribes(op, t) {
        var i :| 0 <= i < |init| && Subscribes(init[i], t) && forall j :: i < j < |init| ==> !Unsubscribes(init[j], t);
        assert Subscribes(ops[i], t) && forall j :: i < j < |ops| ==> !Unsubscribes(ops[j], t) by {
          assert forall j :: i < j < |init| ==> init[j] == ops[j];
        }
      }
      if i :| 0 <= i < |init| && Subscribes(ops[i], t) && forall j :: i < j < |ops| ==> !Unsubscribes(ops[j], t) {
        assert Subscribes(init[i], t) && forall j :: i < j < |init| ==> !Unsubscribes(init[j], t) by {
          assert forall j :: i < j < |init| ==> init[j] == ops[j];
        }
        assert !Unsubscribes(ops[|init|], t);
      }
    }
  }

  /** The connection is not lost, but perhaps by a call that is sent again. */
  predicate Connected(op: Op) {
    !op.Lose? && !op.Reconnect? && !op.ReconnectFails? && !op.UnsubscribeFails?
  }

  lemma {:induction false} StepKeepsLive(s: State, op: Op, s': State, ops: seq<Op>)
    requires Agreement(s) && Next(s, op, s') && Connected(op) && Live(s) == Wanted(ops)
    ensures Live(s') == Wanted(ops + [op])
  {
    hide Sent, SubAcks, UnsubAcks, ServerTargets, OfKind, Topics, NewChannels;
    assert (ops + [op])[..|ops|] == ops;
    if op.Unsubscribe? {
      KindOfLive(s, op.kind);
    }
  }

  lemma {:induction false} KindOfLive(s: State, kind: Kind)
    ensures OfKind(Live(s).Keys, kind) == OfKind(s.channels.Keys, kind) - s.pending
  {
    assert Live(s).Keys == s.channels.Keys - s.pending;
  }

  /**
   Without lost connections the server has exactly what the caller subscribed last, and so has the client, handlers
   included.
   */
  lemma {:induction false} SubscribedAreTheWanted(states: seq<State>, ops: seq<Op>)
    requires Trace(states, ops) && HarmlessRun(states, ops) && forall i :: 0 <= i < |ops| ==> Connected(ops[i])
    ensures states[|ops|].up && Live(states[|ops|]) == Wanted(ops) && states[|ops|].subs == Wanted(ops).Keys
  {
    RunsAgree(states, ops);
    if ops != [] {
      var n := |ops| - 1;
      assert Trace(states[..|ops|], ops[..n]);
      SubscribedAreTheWanted(states[..|ops|], ops[..n]);
      RunsAgree(states[..|ops|], ops[..n]);
      StepKeepsLive(states[n], ops[n], states[n + 1], ops[..n]);
      assert ops == ops[..n] + [ops[n]];
    }
  }

  /** A subscription lasts, through acknowledgements and reconnects, until its topic is unsubscribed. */
  lemma {:induction false} SubscriptionPersists(states: seq<State>, ops: seq<Op>, t: Topic, m: nat)
    requires |states| == |ops| + 1 && (forall i :: 0 <= i < |ops| ==> Next(states[i], ops[i], states[i + 1]))
    requires m <= |ops| && t in Live(states[0]) && forall i :: 0 <= i < m ==> !Unsubscribes(ops[i], t)
    ensures t in Live(states[m])
  {
    if m > 0 {
      SubscriptionPersists(states, ops, t, m - 1);
      var op := ops[m - 1];
      assert Next(states[m - 1], op, states[m]) && !Unsubscribes(op, t);
      if (op.Unsubscribe? || op.UnsubscribeFails?) && op.names.Some? {
        TopicNamed(op.kind, op.names.value, t);
      }
    }
  }

  /** The flag says whether there is any channel; only a subscribe call without channels breaks that. */
  lemma {:induction false} FlagIsExact(s: State, op: Op, s': State)
    requires Next(s, op, s') && (s.subscribed <==> s.channels != map[])
    ensures (s'.subscribed <==> s'.channels != map[]) <==> !(op.Subscribe? && op.args == [] && s.channels == map[])
  {
    if op.Subscribe? && op.args != [] {
      var last := op.args[|op.args| - 1];
      assert Topic(op.kind, last.0) in s'.channels;
    }
  }

  lemma {:induction false} FlagOverRuns(states: seq<State>, ops: seq<Op>)
    requires Trace(states, ops) && forall i :: 0 <= i < |ops| ==> ops[i].Subscribe? ==> ops[i].args != []
    ensures states[|ops|].subscribed <==> states[|ops|].channels != map[]
  {
    if ops != [] {
      var n := |ops| - 1;
      assert Trace(states[..|ops|], ops[..n]);
      FlagOverRuns(states[..|ops|], ops[..n]);
      FlagIsExact(states[n], ops[n], states[n + 1]);
    }
  }

  // ---------------------------------------------------------------- where the agreement ends

  /** A lost and renewed connection subscribes again what was being unsubscribed. */
  lemma {:induction false} ReconnectResurrects(states: seq<State>, ops: seq<Op>, n: nat)
    requires Trace(states, ops) && HarmlessRun(states, ops)
    requires n + 2 <= |ops| && ops[n] == Lose && ops[n + 1] == Reconnect
        && states[n].up
    ensures var s, s' := states[n], states[n + 2];
      s'.subs == s.subs + s.channels.Keys * s.pending && (s'.subs == s.subs <==> s.channels.Keys !! s.pending)
  {
    var s, s' := states[n], states[n + 2];
    assert Trace(states[..n + 1], ops[..n]);
    RunsAgree(states[..n + 1], ops[..n]);
    assert Next(s, ops[n], states[n + 1]) && Next(states[n + 1], ops[n + 1], s');
    assert s'.subs - s.subs == s.channels.Keys * s.pending;
  }

  // ---------------------------------------------------------------- the objects

  /** What becomes of one send: it arrives, or the connection is found or gets lost, perhaps with an error to raise. */
  datatype Send = Arrives | Breaks(raises: bool)

  /** How a send ends that is repeated after each error that may be retried, and what is left of the script. */
  function Fate(sends: seq<Send>): CallEnd {
    if sends == [] || sends[0].Arrives? then Completes
    else if sends[0].raises then Raises
    else Fate(sends[1..])
  }

  function Left(sends: seq<Send>): seq<Send> {
    if sends == [] then []
    else if sends[0] == Breaks(false) then Left(sends[1..])
    else sends[1..]
  }

  /** How resubscribing to the topics of this many kinds ends; a send that is repeated blocks. */
  function ConnectEnd(sends: seq<Send>, kinds: nat): CallEnd {
    if kinds == 0 || sends == [] then Completes
    else if sends[0].Arrives? then ConnectEnd(sends[1..], kinds - 1)
    else if sends[0].raises then Raises
    else Blocks
  }

  function KindsOf(topics: set<Topic>): nat {
    (if OfKind(topics, Channel) == {} then 0 else 1) + (if OfKind(topics, Pattern) == {} then 0 else 1) +
    (if OfKind(topics, ShardChannel) == {} then 0 else 1)
  }

  datatype Request = SubscribeTo(topics: set<Topic>) | UnsubscribeFrom(kind: Kind, names: seq<string>)

  predicate Serves(subs: set<Topic>, stream: seq<Message>, request: Request, subs': set<Topic>, stream': seq<Message>) {
    match request
    case SubscribeTo(topics) => subs' == subs + topics && Sent(stream, stream', SubAcks(topics))
    case UnsubscribeFrom(kind, names) =>
      var dropped := ServerTargets(subs, kind, names);
      subs' == subs - dropped && Sent(stream, stream', UnsubAcks(dropped))
  }

  /** The server's side of the connection, and what will become of the sends on it. */
  class Connection {
    var up: bool
    var subs: set<Topic>
    var stream: seq<Message>
    var sends: seq<Send>

    constructor (sends: seq<Send>)
      ensures up && subs == {} && stream == [] && this.sends == sends
    {
      up, subs, stream, this.sends := true, {}, [], sends;
    }

    method Reopen()
      modifies this
      ensures up && subs == {} && stream == [] && sends == old(sends)
    {
      up, subs, stream := true, {}, [];
    }

    method Close()
      modifies this
      ensures !up && subs == {} && stream == [] && sends == old(sends)
    {
      up, subs, stream := false, {}, [];
    }

    function NextSend(): Send
      reads this
    {
      if sends == [] then Arrives else sends[0]
    }

    /** send_command: the server carries out the request, or the connection is gone. */
    method SendCommand(request: Request) returns (send: Send)
      requires up
      modifies this
      ensures send == old(NextSend()) && (send.Breaks? ==> |sends| < |old(sends)|) && |sends| <= |old(sends)|
      ensures sends == if old(sends) == [] then [] else old(sends)[1..]
      ensures send.Breaks? ==> !up && subs == {} && stream == []
      ensures send.Arrives? ==> up && Serves(old(subs), old(stream), request, subs, stream)
    {
      send := NextSend();
      if |sends| > 0 {
        sends := sends[1..];
      }
      if send.Breaks? {
        Close();
        return;
      }
      match request
      case SubscribeTo(topics) => Subscribe(topics);
      case UnsubscribeFrom(kind, names) => Unsubscribe(kind, names);
    }

    /** SUBSCRIBE, PSUBSCRIBE or SSUBSCRIBE: one answer for each topic, or an error. */
    method Subscribe(topics: set<Topic>)
      modifies `subs, `stream
      ensures subs == old(subs) + topics && Sent(old(stream), stream, SubAcks(topics))
    {
      if topics == {} {
        stream := stream + [Failure];
        return;
      }
      var rest := topics;
      while rest != {}
        invariant rest <= topics && subs == old(subs) + (topics - rest)
        invariant Sent(old(stream), stream, set t | t in topics - rest :: SubAck(t))
      {
        var t :| t in rest;
        ghost var more := stream[|old(stream)|..];
        rest, subs, stream := rest - {t}, subs + {t}, stream + [SubAck(t)];
        assert stream[|old(stream)|..] == more + [SubAck(t)];
        assert (set m | m in more + [SubAck(t)]) == (set m | m in more) + {SubAck(t)};
        assert topics - rest == (topics - (rest + {t})) + {t};
      }
      assert topics - rest == topics;
    }

    method Unsubscribe(kind: Kind, names: seq<string>)
      modifies `subs, `stream
      ensures var dropped := ServerTargets(old(subs), kind, names);
        subs == old(subs) - dropped && Sent(old(stream), stream, UnsubAcks(dropped))
    {
      var dropped := ServerTargets(subs, kind, names);
      subs := subs - dropped;
      if dropped == {} {
        stream := stream + [UnsubAck(None)];
        return;
      }
      var rest := dropped;
      while rest != {}
        invariant rest <= dropped && subs == old(subs) - dropped
        invariant Sent(old(stream), stream, set t | t in dropped - rest :: UnsubAck(Some(t)))
      {
        var t :| t in rest;
        ghost var more := stream[|old(stream)|..];
        rest, stream := rest - {t}, stream + [UnsubAck(Some(t))];
        assert stream[|old(stream)|..] == more + [UnsubAck(Some(t))];
        assert (set m | m in more + [UnsubAck(Some(t))]) == (set m | m in more) + {UnsubAck(Some(t))};
        assert dropped - rest == (dropped - (rest + {t})) + {t};
      }
      assert dropped - rest == dropped;
    }

    method Publish(topic: Topic, data: string)
      modifies `stream
      ensures stream == old(stream) + if topic in subs then [Published(topic, data)] else []
    {
      if topic in subs {
        stream := stream + [Published(topic, data)];
      }
    }
  }

  function AcksOf(topics: set<Topic>, kind: Kind): set<Message> {
    set t | t in OfKind(topics, kind) :: SubAck(t)
  }

  lemma {:induction false} NoKind(topics: set<Topic>)
    ensures topics == {} <==>
        OfKind(topics, Channel) == {} && OfKind(topics, Pattern) == {} && OfKind(topics, ShardChannel) == {}
  {
    assert forall t :: t in topics ==> t in OfKind(topics, t.kind);
  }

  lemma {:induction false} KindByKind(topics: set<Topic>, a: seq<Message>, b: seq<Message>, c: seq<Message>)
    requires Sent([], a, AcksOf(topics, Channel)) && Sent(a, b, AcksOf(topics, Pattern))
        && Sent(b, c, AcksOf(topics, ShardChannel))
    ensures Sent([], c, set t | t in topics :: SubAck(t))
    ensures OfKind(topics, Channel) + OfKind(topics, Pattern) + OfKind(topics, ShardChannel) == topics
  {
    hide Sent;
    assert forall t :: t in topics ==> t in OfKind(topics, t.kind);
    SentTwice([], a, b, AcksOf(topics, Channel), AcksOf(topics, Pattern));
    SentTwice([], b, c, AcksOf(topics, Channel) + AcksOf(topics, Pattern), AcksOf(topics, ShardChannel));
    assert AcksOf(topics, Channel) + AcksOf(topics, Pattern) + AcksOf(topics, ShardChannel) == set t | t in topics ::
        SubAck(t);
  }

  class PubSub {
    const connection: Connection
    const ignoreSubscribeMessages: bool
    var channels: map<Topic, Handler>
    var pendingUnsubscribe: set<Topic>
    var subscribedEvent: bool
    /** The lock around a send. Who takes it twice waits for ever. */
    var locked: bool

    constructor (connection: Connection, ignoreSubscribeMessages: bool)
      requires connection.up && connection.subs == {} && connection.stream == []
      ensures Valid() && !locked && Snapshot() == INITIAL
      ensures this.connection == connection && this.ignoreSubscribeMessages == ignoreSubscribeMessages
    {
      this.connection, this.ignoreSubscribeMessages := connection, ignoreSubscribeMessages;
      channels, pendingUnsubscribe, subscribedEvent, locked := map[], {}, false, false;
    }

    ghost predicate Valid()
      reads this
    {
      channels != map[] ==> subscribedEvent
    }

    function Snapshot(): State
      reads this, connection
    {
      State(channels, pendingUnsubscribe, subscribedEvent, connection.up, connection.subs, connection.stream)
    }

    /** The first attempt of a send will arrive. */
    predicate Undisturbed()
      reads connection
    {
      connection.up && connection.NextSend().Arrives?
    }

    /** The connection is down, or the next send brings it down and is repeated. */
    predicate MustReconnect()
      reads connection
    {
      !connection.up || connection.NextSend() == Breaks(false)
    }

    /**
     execute_command. Reconnecting under the lock subscribes to the known channels, which takes the lock again:
     such a call completes only when there are none.
     */
    method ExecuteCommand(request: Request) returns (r: CallEnd)
      requires Valid()
      modifies this, connection
      ensures Valid() && channels == old(channels) && subscribedEvent == old(subscribedEvent)
      ensures r != Blocks ==> !locked
      ensures old(locked) ==> r == Blocks
      ensures !old(locked) ==> (r == Blocks <==> channels != map[] && old(MustReconnect()))
      ensures r != Blocks ==> r == Fate(old(connection.sends)) && connection.sends == Left(old(connection.sends))
      ensures |connection.sends| <= |old(connection.sends)|
      ensures !old(locked) && old(Undisturbed()) ==>
        && r == Completes && connection.up && pendingUnsubscribe == old(pendingUnsubscribe)
        && Serves(old(connection.subs), old(connection.stream), request, connection.subs, connection.stream)
      ensures r == Completes && !old(Undisturbed()) ==>
        && channels == map[] && connection.up && pendingUnsubscribe == {}
        && Serves({}, [], request, connection.subs, connection.stream)
      ensures r == Raises ==>
        && !connection.up && connection.subs == {} && connection.stream == []
        && pendingUnsubscribe == if old(MustReconnect()) then {} else old(pendingUnsubscribe)
      decreases if locked then 0 else 1, 0
    {
      if locked {
        return Blocks;
      }
      locked := true;
      while true
        invariant Valid() && channels == old(channels) && subscribedEvent == old(subscribedEvent) && locked
        invariant |connection.sends| <= |old(connection.sends)| && !old(locked)
        invariant Fate(connection.sends) == Fate(old(connection.sends))
        invariant Left(connection.sends) == Left(old(connection.sends))
        invariant (connection.sends == old(connection.sends) && Snapshot() == old(Snapshot())) ||
          (old(MustReconnect()) && !connection.up && connection.subs == {} && connection.stream == [] &&
           (pendingUnsubscribe == {} || channels != map[] || old(connection.up)))
        decreases |connection.sends|
      {
        if !connection.up {
          r := Connect();
          if r == Blocks {
            return;
          }
        }
        var send := connection.SendCommand(request);
        if send.Arrives? {
          locked := false;
          return Completes;
        }
        if send.raises {
          locked := false;
          return Raises;
        }
      }
    }

    /** The connection is opened again, and on_connect subscribes to every known topic, kind by kind. */
    method Connect() returns (r: CallEnd)
      requires Valid() && !connection.up
      modifies this, connection
      ensures Valid() && channels == old(channels) && subscribedEvent == old(subscribedEvent)
      ensures |connection.sends| <= |old(connection.sends)|
      ensures r == if old(locked) then if channels == map[] then Completes else Blocks
                   else ConnectEnd(old(connection.sends), KindsOf(channels.Keys))
      ensures channels == map[] ==> connection.sends == old(connection.sends) && connection.stream == []
      ensures old(connection.sends) == [] && !old(locked) ==> r == Completes
      ensures r != Blocks ==> locked == old(locked)
      ensures r == Blocks ==> channels != map[]
      ensures r == Completes ==> Next(old(Snapshot()), Reconnect, Snapshot())
      ensures r == Raises ==> Next(old(Snapshot()), ReconnectFails, Snapshot())
      decreases if locked then 0 else 1, 3
    {
      hide OfKind, Sent, AcksOf;
      connection.Reopen();
      pendingUnsubscribe := {};
      NoKind(channels.Keys);
      r := Resubscribe(Channel);
      if r != Completes {
        return;
      }
      ghost var s1 := connection.stream;
      r := Resubscribe(Pattern);
      if r != Completes {
        return;
      }
      ghost var s2 := connection.stream;
      r := Resubscribe(ShardChannel);
      if r != Completes {
        return;
      }
      KindByKind(channels.Keys, s1, s2, connection.stream);
    }

    method Resubscribe(kind: Kind) returns (r: CallEnd)
      requires Valid() && connection.up && pendingUnsubscribe == {}
      modifies this, connection
      ensures Valid() && channels == old(channels) && subscribedEvent == old(subscribedEvent)
      ensures r != Blocks ==> pendingUnsubscribe == {}
      ensures |connection.sends| <= |old(connection.sends)|
      ensures OfKind(channels.Keys, kind) == {} ==>
        r == Completes && connection.sends == old(connection.sends) && connection.stream == old(connection.stream)
      ensures old(locked) && OfKind(channels.Keys, kind) != {} ==> r == Blocks
      ensures !old(locked) && OfKind(channels.Keys, kind) != {} ==>
        && r == ConnectEnd(old(connection.sends), 1)
        && (r == Completes ==> connection.sends == Left(old(connection.sends)))
      ensures old(connection.sends) == [] && !old(locked) ==> r == Completes
      ensures r != Blocks ==> locked == old(locked)
      ensures r == Completes ==>
        && connection.up && connection.subs == old(connection.subs) + OfKind(channels.Keys, kind)
        && Sent(old(connection.stream), connection.stream, AcksOf(channels.Keys, kind))
      ensures r == Raises ==> !connection.up && connection.subs == {} && connection.stream == []
      decreases if locked then 0 else 1, 2
    {
      var known := map t | t in channels && t.kind == kind :: channels[t];
      assert known.Keys == OfKind(channels.Keys, kind);
      r := Completes;
      if known != map[] {
        assert channels != map[];
        r := SubscribeTo(known);
      }
    }

    method SubscribeTo(newChannels: map<Topic, Handler>) returns (r: CallEnd)
      requires Valid()
      modifies this, connection
      ensures Valid() && |connection.sends| <= |old(connection.sends)|
      ensures r != Blocks ==> !locked
      ensures old(locked) ==> r == Blocks
      ensures !old(locked) ==> (r == Blocks <==> old(channels) != map[] && old(MustReconnect()))
      ensures r != Blocks ==> r == Fate(old(connection.sends)) && connection.sends == Left(old(connection.sends))
      ensures r != Completes ==> channels == old(channels) && subscribedEvent == old(subscribedEvent)
      ensures r == Completes ==> channels == old(channels) + newChannels && subscribedEvent
      ensures !old(locked) && old(Undisturbed()) ==>
        && r == Completes && connection.up && pendingUnsubscribe == old(pendingUnsubscribe) - newChannels.Keys
        && Serves(old(connection.subs), old(connection.stream), Request.SubscribeTo(newChannels.Keys), connection.subs,
            connection.stream)
      ensures r == Completes && !old(Undisturbed()) ==>
        && old(channels) == map[] && connection.up && pendingUnsubscribe == {}
        && Serves({}, [], Request.SubscribeTo(newChannels.Keys), connection.subs, connection.stream)
      ensures r == Raises ==>
        && !connection.up && connection.subs == {} && connection.stream == []
        && pendingUnsubscribe == if old(MustReconnect()) then {} else old(pendingUnsubscribe)
      decreases if locked then 0 else 1, 1
    {
      r := ExecuteCommand(Request.SubscribeTo(newChannels.Keys));
      if r != Completes {
        return;
      }
      channels := channels + newChannels;
      if !subscribedEvent {
        subscribedEvent := true;
      }
      pendingUnsubscribe := pendingUnsubscribe - newChannels.Keys;
    }

    method Subscribe(kind: Kind, args: seq<(string, Handler)>) returns (r: CallEnd)
      requires Valid() && !locked
      modifies this, connection
      ensures Valid() && (r != Blocks ==> !locked)
      ensures r == Blocks <==> old(channels) != map[] && old(MustReconnect())
      ensures r != Blocks ==> r == Fate(old(connection.sends))
      ensures r == Completes ==> Next(old(Snapshot()), Op.Subscribe(kind, args, !old(Undisturbed())), Snapshot())
      ensures r == Raises ==> Next(old(Snapshot()), if old(MustReconnect()) then ReconnectFails else Lose, Snapshot())
    {
      var newChannels: map<Topic, Handler> := map[];
      for i := 0 to |args|
        invariant newChannels == NewChannels(kind, args[..i])
      {
        newChannels := newChannels[Topic(kind, args[i].0) := args[i].1];
        assert args[..i + 1][..i] == args[..i];
      }
      assert args[..|args|] == args;
      r := SubscribeTo(newChannels);
    }

    /** The topics are marked before the command is sent, so a reconnect in between clears the marks. */
    method Unsubscribe(kind: Kind, names: Option<seq<string>>) returns (r: CallEnd)
      requires Valid() && !locked
      modifies this, connection
      ensures Valid() && (r != Blocks ==> !locked)
      ensures r == Blocks <==> channels != map[] && old(MustReconnect())
      ensures r != Blocks ==> r == Fate(old(connection.sends))
      ensures r == Completes ==> Next(old(Snapshot()), Op.Unsubscribe(kind, names, !old(Undisturbed())), Snapshot())
      ensures r == Raises ==>
        Next(old(Snapshot()),
          if old(MustReconnect()) then ReconnectFails else UnsubscribeFails(kind, names), Snapshot())
    {
      pendingUnsubscribe := pendingUnsubscribe + ClientTargets(channels, kind, names);
      r := ExecuteCommand(UnsubscribeFrom(kind, if names.None? then [] else names.value));
    }

    /** A message goes to its topic's handler or else to the caller, an error is raised, and acknowledgements may go. */
    predicate Delivers(known: map<Topic, Handler>, m: Message, outcome: Outcome) {
      match m
      case Published(to, _) =>
        if to in known && known[to].Some? then outcome == Called(known[to].value, m) else outcome == Returned(m)
      case Failure => outcome == Raised
      case _ => outcome == if ignoreSubscribeMessages then Ignored else Returned(m)
    }

    /** handle_message, without the conversion of what is returned. */
    method HandleMessage(response: Message) returns (outcome: Outcome)
      requires Valid()
      modifies `channels, `pendingUnsubscribe, `subscribedEvent
      ensures Valid() && Snapshot() == Handled(old(Snapshot()), response)
      ensures Delivers(old(channels), response, outcome)
    {
      match response
      case Failure => return Raised;
      case Published(to, data) =>
        if to in channels && channels[to].Some? {
          return Called(channels[to].value, response);
        }
        return Returned(response);
      case SubAck(_) => return if ignoreSubscribeMessages then Ignored else Returned(response);
      case UnsubAck(topic) =>
        if topic.Some? && topic.value in pendingUnsubscribe {
          pendingUnsubscribe := pendingUnsubscribe - {topic.value};
          channels := channels - {topic.value};
        }
        if channels == map[] {
          subscribedEvent := false;
        }
        return if ignoreSubscribeMessages then Ignored else Returned(response);
    }

    /** What reading in this state gives: the oldest message, as it is delivered, or nothing. */
    predicate Gives(s: State, outcome: Outcome) {
      if !s.subscribed || s.stream == [] then outcome == Nothing else Delivers(s.channels, s.stream[0], outcome)
    }

    /** get_message: a lost connection is opened again outside the lock, and the oldest message is handled. */
    method GetMessage() returns (outcome: Outcome)
      requires Valid() && !locked
      modifies this, connection
      ensures Valid() && (outcome != Stuck ==> !locked)
      ensures old(connection.up) || !old(subscribedEvent) ==>
        && Next(old(Snapshot()), Op.GetMessage, Snapshot()) && Gives(old(Snapshot()), outcome)
      ensures !old(connection.up) && old(subscribedEvent) ==>
        match old(ConnectEnd(connection.sends, KindsOf(channels.Keys)))
        case Blocks => outcome == Stuck
        case Raises => outcome == Raised && Next(old(Snapshot()), ReconnectFails, Snapshot())
        case Completes =>
          exists between :: Next(old(Snapshot()), Reconnect, between) && Next(between, Op.GetMessage, Snapshot()) &&
            Gives(between, outcome)
    {
      if !subscribedEvent {
        return Nothing;
      }
      if !connection.up {
        var r := Connect();
        if r != Completes {
          return if r == Raises then Raised else Stuck;
        }
      }
      ghost var between := Snapshot();
      if |connection.stream| == 0 {
        assert Next(between, Op.GetMessage, Snapshot());
        return Nothing;
      }
      var response := connection.stream[0];
      connection.stream := connection.stream[1..];
      outcome := HandleMessage(response);
      assert Next(between, Op.GetMessage, Snapshot());
    }
  }
}
