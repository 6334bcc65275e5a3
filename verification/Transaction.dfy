/** MULTI/EXEC: reading the replies of a transaction and putting each result at its command's position. */
module Transactions {
  import opened Helpers

  /** An element of the result list: a value, or an exception that stands in its place. */
  datatype Item = Value(value: string) | Exception(error: string)

  /** What one command answers. EXEC answers an array, nil, or an error. */
  datatype Reply = Status | Error(error: string) | ExecAbort(error: string) | Nil | Array(items: seq<Item>)

  /** A queued command; one with an EMPTY_RESPONSE is never sent, and that is its result. */
  datatype Command = Command(args: string, emptyResponse: Option<string>)

  datatype Request = Multi | Queued(args: string) | Exec

  datatype Outcome =
    | Results(items: seq<Item>)
    | Raised(error: string)
    | NotAnException(value: string)
    | WatchError
    | WrongNumber
    | Malformed

  /** The commands that are sent. */
  function Sent(commands: seq<Command>): seq<Request> {
    if commands == [] then []
    else
      var last := commands[|commands| - 1];
      Sent(commands[..|commands| - 1]) + if last.emptyResponse.Some? then [] else [Queued(last.args)]
  }

  /** What is known of each result before EXEC: the value of an elided command, or the error of a refused one. */
  function Slots(commands: seq<Command>, replies: seq<Reply>): (slots: seq<Option<Item>>)
    requires |replies| == |Sent(commands)|
    ensures |slots| == |commands|
  {
    if commands == [] then []
    else
      var init, last := commands[..|commands| - 1], commands[|commands| - 1];
      if last.emptyResponse.Some? then Slots(init, replies) + [Some(Value(last.emptyResponse.value))]
      else
        var reply := replies[|replies| - 1];
        Slots(init, replies[..|replies| - 1]) +
          [if reply.Error? || reply.ExecAbort? then Some(Exception(reply.error)) else None]
  }

  /** How many results EXEC has still to provide. */
  function Gaps(slots: seq<Option<Item>>): (n: nat)
    ensures n <= |slots|
  {
    if slots == [] then 0 else Gaps(slots[..|slots| - 1]) + if slots[|slots| - 1].None? then 1 else 0
  }

  /** The results in the commands' order: what was known, and EXEC's results in the gaps. */
  function Merged(slots: seq<Option<Item>>, results: seq<Item>): (items: seq<Item>)
    requires |results| == Gaps(slots)
    ensures |items| == |slots|
  {
    if slots == [] then []
    else
      var init, last := slots[..|slots| - 1], slots[|slots| - 1];
      if last.Some? then Merged(init, results) + [last.value]
      else Merged(init, results[..|results| - 1]) + [results[|results| - 1]]
  }

  lemma {:induction false} GapsGrow(slots: seq<Option<Item>>, i: nat)
    requires i < |slots|
    ensures Gaps(slots[..i]) + (if slots[i].None? then 1 else 0) <= Gaps(slots)
  {
    var init := slots[..|slots| - 1];
    if i < |init| {
      GapsGrow(init, i);
      assert init[..i] == slots[..i];
    } else {
      assert slots[..i] == init;
    }
  }

  /** Every position holds what was known of it, or the EXEC result whose number is the gaps before it. */
  lemma {:induction false} MergedAt(slots: seq<Option<Item>>, results: seq<Item>, i: nat)
    requires |results| == Gaps(slots) && i < |slots|
    ensures slots[i].None? ==> Gaps(slots[..i]) < |results|
    ensures Merged(slots, results)[i] == if slots[i].Some? then slots[i].value else results[Gaps(slots[..i])]
  {
    var init, last := slots[..|slots| - 1], slots[|slots| - 1];
    GapsGrow(slots, i);
    if i < |init| {
      assert init[..i] == slots[..i];
      var before := if last.Some? then results else results[..|results| - 1];
      MergedAt(init, before, i);
    } else {
      assert slots[..i] == init;
    }
  }

  /** The known results with their positions, in order. */
  function Numbered(slots: seq<Option<Item>>): seq<(nat, Item)> {
    if slots == [] then []
    else
      Numbered(slots[..|slots| - 1]) +
        if slots[|slots| - 1].Some? then [(|slots| - 1, slots[|slots| - 1].value)] else []
  }

  /** list.insert */
  function Insert(items: seq<Item>, i: nat, item: Item): seq<Item> {
    if i >= |items| then items + [item] else items[..i] + [item] + items[i..]
  }

  function InsertAll(items: seq<Item>, known: seq<(nat, Item)>): (all: seq<Item>)
    ensures |all| == |items| + |known|
  {
    if known == [] then items
    else
      var last := known[|known| - 1];
      Insert(InsertAll(items, known[..|known| - 1]), last.0, last.1)
  }

  lemma {:induction false} NumberedFill(slots: seq<Option<Item>>)
    ensures |Numbered(slots)| + Gaps(slots) == |slots|
  {
    if slots != [] {
      NumberedFill(slots[..|slots| - 1]);
    }
  }

  lemma {:induction false} OneMoreInserted(items: seq<Item>, known: seq<(nat, Item)>, last: (nat, Item))
    ensures InsertAll(items, known + [last]) == Insert(InsertAll(items, known), last.0, last.1)
  {
    assert (known + [last])[..|known|] == known;
  }

  /** An element behind every insertion stays behind. */
  lemma {:induction false} InsertBefore(items: seq<Item>, last: Item, slots: seq<Option<Item>>)
    requires |items| >= Gaps(slots)
    ensures InsertAll(items + [last], Numbered(slots)) == InsertAll(items, Numbered(slots)) + [last]
  {
    if slots != [] {
      hide Numbered, InsertAll;
      var init, n := slots[..|slots| - 1], |slots| - 1;
      var known := Numbered(init);
      InsertBefore(items, last, init);
      assert slots == init + [slots[n]];
      NumberedAppend(init, slots[n]);
      if slots[n].Some? {
        NumberedFill(init);
        var a, e := InsertAll(items, known), slots[n].value;
        OneMoreInserted(items, known, (n, e));
        OneMoreInserted(items + [last], known, (n, e));
        assert Insert(a + [last], n, e) == Insert(a, n, e) + [last];
      } else {
        assert known + [] == known;
      }
    }
  }

  /** Inserting the known results one after the other, at their own positions, is merging. */
  lemma {:induction false} InsertingMerges(slots: seq<Option<Item>>, results: seq<Item>)
    requires |results| == Gaps(slots)
    ensures InsertAll(results, Numbered(slots)) == Merged(slots, results)
  {
    if slots != [] {
      var init, last := slots[..|slots| - 1], slots[|slots| - 1];
      var known := Numbered(init);
      if last.Some? {
        InsertingMerges(init, results);
        assert (known + [(|slots| - 1, last.value)])[..|known|] == known;
      } else {
        var before, x := results[..|results| - 1], results[|results| - 1];
        InsertingMerges(init, before);
        assert results == before + [x];
        InsertBefore(before, x, init);
        assert Numbered(slots) == known;
      }
    }
  }

  // ---------------------------------------------------------------- what a transaction comes to

  predicate Refused(reply: Reply) {
    reply.Error? || reply.ExecAbort?
  }

  function Requests(commands: seq<Command>): seq<Request> {
    [Multi] + Sent(commands) + [Exec]
  }

  /** The first exception in the results, or the results. */
  function Checked(items: seq<Item>, raiseOnError: bool): Outcome {
    if raiseOnError && exists i :: 0 <= i < |items| && items[i].Exception? then Raised(FirstException(items))
    else Results(items)
  }

  function FirstException(items: seq<Item>): string
    requires exists i :: 0 <= i < |items| && items[i].Exception?
  {
    if items[0].Exception? then items[0].error else FirstException(items[1..])
  }

  /** What was noted while reading: an error of MULTI counts as one at the first position. */
  function Noted(commands: seq<Command>, replies: seq<Reply>): seq<(nat, Item)>
    requires |replies| == |Sent(commands)| + 2
  {
    (if Refused(replies[0]) then [(0, Exception(replies[0].error))] else []) +
    Numbered(Slots(commands, replies[1..|replies| - 1]))
  }

  function Verdict(commands: seq<Command>, replies: seq<Reply>, raiseOnError: bool): Outcome
    requires |replies| == |Sent(commands)| + 2
  {
    var noted := Noted(commands, replies);
    match replies[|replies| - 1]
    case ExecAbort(error) =>
      if noted == [] then Raised(error)
      else if noted[0].1.Exception? then Raised(noted[0].1.error) else NotAnException(noted[0].1.value)
    case Error(error) => Raised(error)
    case Nil => WatchError
    case Status => Malformed
    case Array(items) =>
      var all := InsertAll(items, noted);
      if |all| != |commands| then WrongNumber else Checked(all, raiseOnError)
  }

  /**
   A server that keeps the rules: a refused command aborts EXEC, and otherwise EXEC answers for every command or not
   at all.
   */
  predicate Transactional(commands: seq<Command>, replies: seq<Reply>) {
    && |replies| == |Sent(commands)| + 2 && replies[0] == Status
    && (forall i :: 1 <= i < |replies| - 1 ==> replies[i].Status? || replies[i].Error?)
    && var exec := replies[|replies| - 1];
       if exists i :: 1 <= i < |replies| - 1 && replies[i].Error? then exec.ExecAbort?
       else exec.Nil? || (exec.Array? && |exec.items| == |Sent(commands)|)
  }

  lemma {:induction false} SlotsAt(commands: seq<Command>, replies: seq<Reply>, i: nat)
    requires |replies| == |Sent(commands)| && i < |commands|
    ensures |Sent(commands[..i])| + (if commands[i].emptyResponse.Some? then 0 else 1) <= |replies|
    ensures Slots(commands, replies)[..i] == Slots(commands[..i], replies[..|Sent(commands[..i])|])
    ensures Slots(commands, replies)[i] ==
      if commands[i].emptyResponse.Some? then Some(Value(commands[i].emptyResponse.value))
      else
        var reply := replies[|Sent(commands[..i])|];
        if Refused(reply) then Some(Exception(reply.error)) else None
  {
    var init, last := commands[..|commands| - 1], commands[|commands| - 1];
    var before := if last.emptyResponse.Some? then replies else replies[..|replies| - 1];
    var slots := Slots(commands, replies);
    assert slots[..|init|] == Slots(init, before);
    if i < |init| {
      SlotsAt(init, before, i);
      assert init[..i] == commands[..i];
      assert slots[..i] == slots[..|init|][..i];
      assert before[..|Sent(commands[..i])|] == replies[..|Sent(commands[..i])|];
    } else {
      assert commands[..i] == init;
      assert replies[..|before|] == before;
    }
  }

  lemma {:induction false} GapsOfQueued(commands: seq<Command>, replies: seq<Reply>)
    requires |replies| == |Sent(commands)| && forall i :: 0 <= i < |replies| ==> replies[i] == Status
    ensures Gaps(Slots(commands, replies)) == |Sent(commands)|
  {
    if commands != [] {
      var init, last := commands[..|commands| - 1], commands[|commands| - 1];
      var slots := Slots(commands, replies);
      var before := if last.emptyResponse.Some? then replies else replies[..|replies| - 1];
      GapsOfQueued(init, before);
      assert slots[..|slots| - 1] == Slots(init, before);
    }
  }

  /**
   A transaction that was carried out: every command has its own result, an elided one its
   EMPTY_RESPONSE, and any other the EXEC result numbered by the commands sent before it.
   */
  lemma {:induction false} EveryResultAtItsCommand(commands: seq<Command>, replies: seq<Reply>)
    requires Transactional(commands, replies) && replies[|replies| - 1].Array?
    ensures var outcome, items := Verdict(commands, replies, false), replies[|replies| - 1].items;
      && outcome.Results? && |outcome.items| == |commands|
      && forall i :: 0 <= i < |commands| ==>
           if commands[i].emptyResponse.Some? then outcome.items[i] == Value(commands[i].emptyResponse.value)
           else |Sent(commands[..i])| < |items| && outcome.items[i] == items[|Sent(commands[..i])|]
  {
    hide Slots, Gaps, Merged, Numbered, InsertAll;
    var queued, items := replies[1..|replies| - 1], replies[|replies| - 1].items;
    assert forall i :: 0 <= i < |queued| ==> queued[i] == replies[i + 1];
    var slots := Slots(commands, queued);
    GapsOfQueued(commands, queued);
    InsertingMerges(slots, items);
    assert Noted(commands, replies) == Numbered(slots);
    forall i | 0 <= i < |commands|
      ensures if commands[i].emptyResponse.Some? then Merged(slots, items)[i] == Value(commands[i].emptyResponse.value)
              else |Sent(commands[..i])| < |items| && Merged(slots, items)[i] == items[|Sent(commands[..i])|]
    {
      SlotsAt(commands, queued, i);
      MergedAt(slots, items, i);
      GapsOfQueued(commands[..i], queued[..|Sent(commands[..i])|]);
    }
  }

  /** What is sent: MULTI, every command that is not elided, in order and with its own arguments, and EXEC. */
  lemma {:induction false} SentInOrder(commands: seq<Command>, i: nat)
    requires i < |commands|
    ensures Requests(commands)[0] == Multi && Requests(commands)[|Requests(commands)| - 1] == Exec
    ensures |Requests(commands)| == |Sent(commands)| + 2
    ensures |Sent(commands[..i + 1])| == |Sent(commands[..i])| + if commands[i].emptyResponse.Some? then 0 else 1
    ensures commands[i].emptyResponse.None? ==>
      && |Sent(commands[..i])| + 1 < |Requests(commands)| - 1
      && Requests(commands)[|Sent(commands[..i])| + 1] == Queued(commands[i].args)
  {
    assert commands[..i + 1][..i] == commands[..i];
    assert commands[..|commands|] == commands && Sent(commands[..0]) == [];
    SentPrefix(commands, i + 1);
    var n := |Sent(commands[..i])|;
    assert commands[i].emptyResponse.None? ==> Requests(commands)[n + 1] == Sent(commands[..i + 1])[n];
  }

  lemma {:induction false} SentPrefix(commands: seq<Command>, i: nat)
    requires i <= |commands|
    ensures Sent(commands[..i]) <= Sent(commands)
  {
    if i < |commands| {
      assert commands[..|commands| - 1][..i] == commands[..i];
      SentPrefix(commands[..|commands| - 1], i);
    } else {
      assert commands[..i] == commands;
    }
  }

  /** EXEC's nil, and nothing else, raises WatchError. */
  lemma {:induction false} NilRaisesWatchError(commands: seq<Command>, replies: seq<Reply>, raiseOnError: bool)
    requires |replies| == |Sent(commands)| + 2
    ensures Verdict(commands, replies, raiseOnError) == WatchError <==> replies[|replies| - 1].Nil?
  {
    hide Noted, InsertAll, FirstException;
  }

  /** With raise_on_error the first exception in the commands' order is raised; without one, nothing is. */
  lemma {:induction false} FirstErrorRaised(commands: seq<Command>, replies: seq<Reply>, k: nat)
    requires |replies| == |Sent(commands)| + 2
    requires Verdict(commands, replies, false).Results?
    ensures var items, outcome := Verdict(commands, replies, false).items, Verdict(commands, replies, true);
      && (k < |items| && items[k].Exception? && (forall i :: 0 <= i < k ==> items[i].Value?) ==>
            outcome == Raised(items[k].error))
      && ((forall i :: 0 <= i < |items| ==> items[i].Value?) ==> outcome == Results(items))
  {
    hide Noted, InsertAll, FirstException;
    var items := Verdict(commands, replies, false).items;
    if k < |items| && items[k].Exception? && forall i :: 0 <= i < k ==> items[i].Value? {
      FirstExceptionAt(items, k);
    }
  }

  lemma {:induction false} FirstExceptionAt(items: seq<Item>, k: nat)
    requires k < |items| && items[k].Exception? && forall i :: 0 <= i < k ==> items[i].Value?
    ensures FirstException(items) == items[k].error
  {
    if k > 0 {
      FirstExceptionAt(items[1..], k - 1);
    }
  }

  lemma {:induction false} FirstNumbered(slots: seq<Option<Item>>, i: nat)
    requires i < |slots| && slots[i].Some? && forall j :: 0 <= j < i ==> slots[j].None?
    ensures Numbered(slots) != [] && Numbered(slots)[0] == (i, slots[i].value)
  {
    var init := slots[..|slots| - 1];
    if i < |init| {
      FirstNumbered(init, i);
    } else {
      NoneNumbered(init);
    }
  }

  lemma {:induction false} NoneNumbered(slots: seq<Option<Item>>)
    requires forall j :: 0 <= j < |slots| ==> slots[j].None?
    ensures Numbered(slots) == []
  {
    if slots != [] {
      NoneNumbered(slots[..|slots| - 1]);
    }
  }

  /**
   An aborted transaction raises the error of the first refused command exactly when no elided command
   stands before it; with one there, what is raised is that command's value, which is no exception.
   */
  lemma {:induction false} AbortRaisesTheFirstError(commands: seq<Command>, replies: seq<Reply>, raiseOnError: bool,
      r: nat)
    requires Transactional(commands, replies) && r < |commands| && commands[r].emptyResponse.None?
    requires |Sent(commands[..r])| + 2 < |replies|
    requires Refused(replies[|Sent(commands[..r])| + 1])
    requires forall i :: 1 <= i < |Sent(commands[..r])| + 1 ==> replies[i] == Status
    ensures Verdict(commands, replies, raiseOnError) == Raised(replies[|Sent(commands[..r])| + 1].error) <==>
      forall i :: 0 <= i < r ==> commands[i].emptyResponse.None?
    ensures Verdict(commands, replies, raiseOnError).NotAnException? <==>
        exists i :: 0 <= i < r && commands[i].emptyResponse.Some?
  {
    hide Slots, Numbered, Gaps;
    var queued := replies[1..|replies| - 1];
    var slots := Slots(commands, queued);
    var f := FirstElidedOr(commands, r);
    forall j | 0 <= j < f ensures slots[j].None? {
      SlotsAt(commands, queued, j);
      SentGrows(commands, j, r);
      assert queued[|Sent(commands[..j])|] == replies[|Sent(commands[..j])| + 1];
    }
    SlotsAt(commands, queued, f);
    assert f == r ==> queued[|Sent(commands[..r])|] == replies[|Sent(commands[..r])| + 1];
    FirstNumbered(slots, f);
    assert Noted(commands, replies) == Numbered(slots);
  }

  function FirstElidedOr(commands: seq<Command>, r: nat): (f: nat)
    requires r < |commands|
    ensures f <= r && (f < r ==> commands[f].emptyResponse.Some?)
    ensures forall i :: 0 <= i < f ==> commands[i].emptyResponse.None?
  {
    if r == 0 then 0
    else
      var f := FirstElidedOr(commands, r - 1);
      if f < r - 1 || commands[r - 1].emptyResponse.Some? then f else r
  }

  lemma {:induction false} SentGrows(commands: seq<Command>, j: nat, r: nat)
    requires j < r <= |commands|
    ensures |Sent(commands[..j])| + (if commands[j].emptyResponse.Some? then 0 else 1) <= |Sent(commands[..r])|
  {
    assert commands[..r][..r - 1] == commands[..r - 1];
    if j < r - 1 {
      SentGrows(commands, j, r - 1);
    }
  }

  lemma {:induction false} NoneQueued(commands: seq<Command>)
    ensures Sent(commands[..0]) == [] && Numbered(Slots([], [])) == []
  {
  }

  /** What reading the reply of one more command adds, if one was sent. */
  lemma {:induction false} OneMoreQueued(commands: seq<Command>, replies: seq<Reply>, i: nat)
    requires i < |commands| && |replies| >= |Sent(commands)|
    ensures var n, m := |Sent(commands[..i])|, |Sent(commands[..i + 1])|;
      && n <= m <= |Sent(commands)| && m == n + (if commands[i].emptyResponse.Some? then 0 else 1)
      && Numbered(Slots(commands[..i + 1], replies[..m])) == Numbered(Slots(commands[..i], replies[..n])) +
         if commands[i].emptyResponse.Some? then [(i, Value(commands[i].emptyResponse.value))]
         else if Refused(replies[n]) then [(i, Exception(replies[n].error))] else []
  {
    hide Numbered;
    var n, m := |Sent(commands[..i])|, |Sent(commands[..i + 1])|;
    assert commands[..|commands|] == commands;
    SentGrows(commands, i, |commands|);
    SlotsStep(commands[..i], commands[i], replies);
    assert commands[..i + 1] == commands[..i] + [commands[i]];
    var slot := if commands[i].emptyResponse.Some? then Some(Value(commands[i].emptyResponse.value))
      else if Refused(replies[n]) then Some(Exception(replies[n].error)) else None;
    NumberedAppend(Slots(commands[..i], replies[..n]), slot);
  }

  lemma {:induction false} SlotsStep(init: seq<Command>, last: Command, replies: seq<Reply>)
    requires |replies| >= |Sent(init)| + if last.emptyResponse.Some? then 0 else 1
    ensures var n, m := |Sent(init)|, |Sent(init + [last])|;
      && m == n + (if last.emptyResponse.Some? then 0 else 1)
      && Slots(init + [last], replies[..m]) == Slots(init, replies[..n]) +
         [if last.emptyResponse.Some? then Some(Value(last.emptyResponse.value))
          else if Refused(replies[n]) then Some(Exception(replies[n].error)) else None]
  {
    var n, m := |Sent(init)|, |Sent(init + [last])|;
    assert (init + [last])[..|init|] == init;
    assert replies[..m][..n] == replies[..n];
    assert m == n ==> replies[..m] == replies[..n];
  }

  lemma {:induction false} NumberedAppend(slots: seq<Option<Item>>, last: Option<Item>)
    ensures Numbered(slots + [last]) == Numbered(slots) + if last.Some? then [(|slots|, last.value)] else []
  {
    assert (slots + [last])[..|slots|] == slots;
  }

  // ---------------------------------------------------------------- the objects

  /** A connection in step with its server: each request sent brings one reply, in order. */
  class Connection {
    const serve: seq<Request> -> seq<Reply>
    var incoming: seq<Reply>
    var connected: bool

    ghost predicate Valid()
      reads this
    {
      forall requests :: |serve(requests)| == |requests|
    }

    constructor (serve: seq<Request> -> seq<Reply>)
      requires forall requests :: |serve(requests)| == |requests|
      ensures Valid() && this.serve == serve && incoming == [] && connected
    {
      this.serve, incoming, connected := serve, [], true;
    }

    method SendPackedCommand(requests: seq<Request>)
      requires Valid()
      modifies this
      ensures Valid() && incoming == old(incoming) + serve(requests) && connected == old(connected)
    {
      incoming := incoming + serve(requests);
    }

    method ReadResponse() returns (reply: Reply)
      requires Valid() && incoming != []
      modifies this
      ensures Valid() && reply == old(incoming)[0] && incoming == old(incoming)[1..] && connected == old(connected)
    {
      reply, incoming := incoming[0], incoming[1..];
    }
  }

  class Pipeline {
    const connection: Connection
    var watching: bool

    constructor (connection: Connection)
      ensures this.connection == connection && !watching
    {
      this.connection, watching := connection, false;
    }

    /** The replies of the commands between MULTI and EXEC. */
    method ReadQueued(commands: seq<Command>) returns (errors: seq<(nat, Item)>)
      requires connection.Valid() && |connection.incoming| > |Sent(commands)|
      modifies connection
      ensures connection.Valid() && connection.connected == old(connection.connected)
      ensures connection.incoming == old(connection.incoming)[|Sent(commands)|..]
      ensures errors == Numbered(Slots(commands, old(connection.incoming)[..|Sent(commands)|]))
    {
      hide Slots, Numbered, Sent;
      errors := [];
      ghost var replies := connection.incoming;
      NoneQueued(commands);
      for i := 0 to |commands|
        invariant connection.Valid() && connection.connected == old(connection.connected)
        invariant |Sent(commands[..i])| <= |Sent(commands)| && connection.incoming == replies[|Sent(commands[..i])|..]
        invariant errors == Numbered(Slots(commands[..i], replies[..|Sent(commands[..i])|]))
      {
        OneMoreQueued(commands, replies, i);
        if commands[i].emptyResponse.Some? {
          errors := errors + [(i, Value(commands[i].emptyResponse.value))];
        } else {
          var reply := connection.ReadResponse();
          if reply.Error? || reply.ExecAbort? {
            errors := errors + [(i, Exception(reply.error))];
          }
        }
      }
      assert commands[..|commands|] == commands;
    }

    /** _execute_transaction. However it ends, as many replies were read as commands were sent. */
    method ExecuteTransaction(commands: seq<Command>, raiseOnError: bool) returns (outcome: Outcome)
      requires connection.Valid() && connection.incoming == []
      modifies this, connection
      ensures connection.Valid() && connection.incoming == []
      ensures var replies := connection.serve(Requests(commands));
        && |replies| == |Sent(commands)| + 2
        && outcome == Verdict(commands, replies, raiseOnError)
        && watching == (old(watching) && Refused(replies[|replies| - 1]))
      ensures connection.connected == (old(connection.connected) && outcome != WrongNumber)
    {
      hide Slots, Numbered;
      ghost var replies := connection.serve(Requests(commands));
      connection.SendPackedCommand(Requests(commands));
      var errors: seq<(nat, Item)> := [];
      var multi := connection.ReadResponse();
      if multi.Error? || multi.ExecAbort? {
        errors := [(0, Exception(multi.error))];
      }
      assert connection.incoming == replies[1..];
      var more := ReadQueued(commands);
      assert replies[1..][..|Sent(commands)|] == replies[1..|replies| - 1];
      errors := errors + more;
      assert errors == Noted(commands, replies);
      var exec := connection.ReadResponse();
      if exec.ExecAbort? {
        if errors != [] {
          return if errors[0].1.Exception? then Raised(errors[0].1.error) else NotAnException(errors[0].1.value);
        }
        return Raised(exec.error);
      }
      if exec.Error? {
        return Raised(exec.error);
      }
      watching := false;
      if exec.Nil? {
        return WatchError;
      }
      if exec.Status? {
        return Malformed;
      }
      var response := exec.items;
      for i := 0 to |errors|
        invariant response == InsertAll(exec.items, errors[..i])
      {
        assert errors[..i + 1][..i] == errors[..i];
        response := Insert(response, errors[i].0, errors[i].1);
      }
      assert errors[..|errors|] == errors;
      if |response| != |commands| {
        connection.connected := false;
        return WrongNumber;
      }
      outcome := Checked(response, raiseOnError);
    }
  }
}
