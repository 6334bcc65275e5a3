/** What a pipeline over a cluster must mean, and why grouping its commands by node does not change it. */
module PipelineSpec {
  import opened ClusterNodes
  import opened ClusterClient

  // ---------------------------------------------------------------- one by one, in order

  function RunAll(logs: Logs, cs: seq<Command>): Logs {
    if cs == [] then logs else Executed(RunAll(logs, cs[..|cs| - 1]), cs[|cs| - 1])
  }

  /** The replies of running the commands one by one. */
  function RepliesInOrder(logs: Logs, cs: seq<Command>): seq<Reply> {
    seq(|cs|, i requires 0 <= i < |cs| => Value(LogOf(RunAll(logs, cs[..i + 1]), cs[i].slot)))
  }

  /** The commands of one slot, in order. */
  function OfSlot(cs: seq<Command>, s: Slot): seq<Command> {
    if cs == [] then []
    else OfSlot(cs[..|cs| - 1], s) + if cs[|cs| - 1].slot == s then [cs[|cs| - 1]] else []
  }

  /** Running a list of commands extends each slot's log by the commands of that slot. */
  lemma {:induction false} RunAllPerSlot(logs: Logs, cs: seq<Command>, s: Slot)
    ensures LogOf(RunAll(logs, cs), s) == LogOf(logs, s) + OfSlot(cs, s)
  {
    if cs != [] {
      RunAllPerSlot(logs, cs[..|cs| - 1], s);
      RunAllPerSlot(logs, cs[..|cs| - 1], cs[|cs| - 1].slot);
    }
  }

  lemma {:induction false} NoneOfSlot(cs: seq<Command>, s: Slot, a: nat, b: nat)
    requires a <= b <= |cs| && forall q :: a <= q < b ==> cs[q].slot != s
    ensures OfSlot(cs[..b], s) == OfSlot(cs[..a], s)
  {
    if a < b {
      NoneOfSlot(cs, s, a, b - 1);
      assert cs[..b][..b - 1] == cs[..b - 1];
    }
  }

  lemma {:induction false} NextOfSlot(cs: seq<Command>, s: Slot, p: nat)
    requires p < |cs|
    ensures OfSlot(cs[..p + 1], s) == OfSlot(cs[..p], s) + if cs[p].slot == s then [cs[p]] else []
  {
    assert cs[..p + 1][..p] == cs[..p];
  }

  /** The reply that the command at position p must get. */
  function Due(logs: Logs, cs: seq<Command>, p: nat): Reply
    requires p < |cs|
  {
    Value(LogOf(logs, cs[p].slot) + OfSlot(cs[..p + 1], cs[p].slot))
  }

  lemma {:induction false} DueInOrder(logs: Logs, cs: seq<Command>)
    ensures forall p :: 0 <= p < |cs| ==> RepliesInOrder(logs, cs)[p] == Due(logs, cs, p)
  {
    forall p | 0 <= p < |cs| ensures RepliesInOrder(logs, cs)[p] == Due(logs, cs, p) {
      RunAllPerSlot(logs, cs[..p + 1], cs[p].slot);
    }
  }

  // ---------------------------------------------------------------- grouped by node

  function RouteOf(view: View, s: Slot): Name
    requires s in view && view[s] != []
  {
    view[s][0]
  }

  predicate Total(view: View) {
    forall s: Slot :: s in view && view[s] != []
  }

  /** The positions of the commands that the slot table sends to node n. */
  function Positions(cs: seq<Command>, view: View, n: Name): (ps: seq<nat>)
    requires Total(view)
    ensures forall k :: 0 <= k < |ps| ==> ps[k] < |cs| && RouteOf(view, cs[ps[k]].slot) == n
    ensures forall j, k :: 0 <= j < k < |ps| ==> ps[j] < ps[k]
    ensures forall q :: 0 <= q < |cs| && RouteOf(view, cs[q].slot) == n ==> q in ps
  {
    if cs == [] then []
    else Positions(cs[..|cs| - 1], view, n) + if RouteOf(view, cs[|cs| - 1].slot) == n then [|cs| - 1] else []
  }

  function Pick(cs: seq<Command>, ps: seq<nat>): seq<Command>
    requires forall k :: 0 <= k < |ps| ==> ps[k] < |cs|
  {
    seq(|ps|, k requires 0 <= k < |ps| => cs[ps[k]])
  }

  /** A node executes what it owns and answers MOVED to the rest. */
  function Served(owner: Slot -> Name, n: Name, logs: Logs, c: Command): Logs {
    if owner(c.slot) == n then Executed(logs, c) else logs
  }

  function ServedReply(owner: Slot -> Name, n: Name, logs: Logs, c: Command): Reply {
    if owner(c.slot) == n then Value(LogOf(logs, c.slot) + [c]) else MovedTo(owner(c.slot))
  }

  function ServedAll(owner: Slot -> Name, n: Name, logs: Logs, cs: seq<Command>): Logs {
    if cs == [] then logs else Served(owner, n, ServedAll(owner, n, logs, cs[..|cs| - 1]), cs[|cs| - 1])
  }

  function ServedReplies(owner: Slot -> Name, n: Name, logs: Logs, cs: seq<Command>): (replies: seq<Reply>)
    ensures |replies| == |cs|
  {
    if cs == [] then []
    else
      var init, last := cs[..|cs| - 1], cs[|cs| - 1];
      ServedReplies(owner, n, logs, init) + [ServedReply(owner, n, ServedAll(owner, n, logs, init), last)]
  }

  /**
   The logs while the groups are written: slots routed to their owner have all their commands once their node
   is in `written`, those before `bound` while it is node n; all other slots are as they were.
   */
  ghost predicate Writing(start: Logs, logs: Logs, cs: seq<Command>, view: View, owner: Slot -> Name,
                          written: set<Name>, n: Name, bound: nat)
    requires Total(view) && bound <= |cs|
  {
    forall s: Slot :: LogOf(logs, s) == LogOf(start, s) + WrittenOf(cs, view, owner, written, n, bound, s)
  }

  function WrittenOf(cs: seq<Command>, view: View, owner: Slot -> Name, written: set<Name>, n: Name, bound: nat,
      s: Slot): seq<Command>
    requires Total(view) && bound <= |cs|
  {
    if RouteOf(view, s) != owner(s) then []
    else if RouteOf(view, s) in written then OfSlot(cs, s)
    else if RouteOf(view, s) == n then OfSlot(cs[..bound], s)
    else []
  }

  function BoundAt(cs: seq<Command>, ps: seq<nat>, k: nat): nat {
    if k < |ps| then ps[k] else |cs|
  }

  lemma {:induction false} NotBetween(ps: seq<nat>, k: nat, q: nat)
    requires forall i, j :: 0 <= i < j < |ps| ==> ps[i] < ps[j]
    requires k <= |ps| && (k > 0 ==> ps[k - 1] < q) && (k < |ps| ==> q < ps[k])
    ensures q !in ps
  {
    assert forall j :: 0 <= j < |ps| ==> ps[j] != q;
  }

  /** Between two commands of its group, a node is sent no command of a slot that is routed to it. */
  lemma {:induction false} GapOfGroup(cs: seq<Command>, view: View, n: Name, k: nat, s: Slot)
    requires Total(view) && RouteOf(view, s) == n
    requires k <= |Positions(cs, view, n)|
    ensures var ps := Positions(cs, view, n);
      var from := if k == 0 then 0 else ps[k - 1] + 1;
      from <= BoundAt(cs, ps, k) <= |cs| && OfSlot(cs[..BoundAt(cs, ps, k)], s) == OfSlot(cs[..from], s)
  {
    hide Positions;
    var ps := Positions(cs, view, n);
    var from := if k == 0 then 0 else ps[k - 1] + 1;
    var to := BoundAt(cs, ps, k);
    forall q | from <= q < to ensures cs[q].slot != s {
      NotBetween(ps, k, q);
    }
    NoneOfSlot(cs, s, from, to);
  }

  /** Serving a node's group keeps `Writing`, and gives the owned commands the replies that are due. */
  lemma {:induction false} GroupServed(start: Logs, logs: Logs, cs: seq<Command>, view: View, owner: Slot -> Name,
                                      written: set<Name>, n: Name, k: nat)
    requires Total(view) && n !in written && k <= |Positions(cs, view, n)|
    requires Writing(start, logs, cs, view, owner, written, n, 0)
    ensures var ps := Positions(cs, view, n);
      BoundAt(cs, ps, k) <= |cs| &&
      Writing(start, ServedAll(owner, n, logs, Pick(cs, ps)[..k]), cs, view, owner, written, n, BoundAt(cs, ps, k))
    ensures var ps := Positions(cs, view, n);
      forall j :: 0 <= j < k ==>
        ServedReplies(owner, n, logs, Pick(cs, ps)[..k])[j] ==
        if owner(cs[ps[j]].slot) == n then Due(start, cs, ps[j]) else MovedTo(owner(cs[ps[j]].slot))
  {
    hide Positions, RouteOf, Writing, Served, ServedReply, ServedAll, ServedReplies, Due;
    var ps := Positions(cs, view, n);
    var group := Pick(cs, ps);
    NothingServed(owner, n, logs, group);
    if k == 0 {
      GroupStarts(start, logs, cs, view, owner, written, n);
    } else {
      GroupServed(start, logs, cs, view, owner, written, n, k - 1);
      NextServed(owner, n, logs, group, k - 1);
      OneServed(start, ServedAll(owner, n, logs, group[..k - 1]), cs, view, owner, written, n, k - 1);
    }
  }

  lemma {:induction false} NothingServed(owner: Slot -> Name, n: Name, logs: Logs, group: seq<Command>)
    ensures ServedAll(owner, n, logs, group[..0]) == logs
  {
  }

  lemma {:induction false} NextServed(owner: Slot -> Name, n: Name, logs: Logs, group: seq<Command>, k: nat)
    requires k < |group|
    ensures var before := ServedAll(owner, n, logs, group[..k]);
      && ServedAll(owner, n, logs, group[..k + 1]) == Served(owner, n, before, group[k])
      && ServedReplies(owner, n, logs, group[..k + 1]) ==
         ServedReplies(owner, n, logs, group[..k]) + [ServedReply(owner, n, before, group[k])]
  {
    hide Served, ServedReply;
    assert group[..k + 1][..k] == group[..k];
  }

  /** Before its first command a node has no command to execute. */
  lemma {:induction false} GroupStarts(start: Logs, logs: Logs, cs: seq<Command>, view: View, owner: Slot -> Name,
      written: set<Name>,
      n: Name)
    requires Total(view) && n !in written && Writing(start, logs, cs, view, owner, written, n, 0)
    ensures var bound := BoundAt(cs, Positions(cs, view, n), 0);
      bound <= |cs| && Writing(start, logs, cs, view, owner, written, n, bound)
  {
    hide Positions, RouteOf, OfSlot;
    var bound := BoundAt(cs, Positions(cs, view, n), 0);
    forall s: Slot ensures LogOf(logs, s) == LogOf(start, s) + WrittenOf(cs, view, owner, written, n, bound, s) {
      if RouteOf(view, s) == n {
        GapOfGroup(cs, view, n, 0, s);
      }
    }
  }

  lemma {:induction false} OneServed(start: Logs, logs: Logs, cs: seq<Command>, view: View, owner: Slot -> Name,
      written: set<Name>,
      n: Name, k: nat)
    requires Total(view) && n !in written && k < |Positions(cs, view, n)|
    requires Writing(start, logs, cs, view, owner, written, n, Positions(cs, view, n)[k])
    ensures var ps := Positions(cs, view, n);
      && Writing(start, Served(owner, n, logs, cs[ps[k]]), cs, view, owner, written, n, BoundAt(cs, ps, k + 1))
      && ServedReply(owner, n, logs, cs[ps[k]]) ==
         if owner(cs[ps[k]].slot) == n then Due(start, cs, ps[k]) else MovedTo(owner(cs[ps[k]].slot))
  {
    hide Positions, OfSlot, WrittenOf;
    var p := Positions(cs, view, n)[k];
    NextOfSlot(cs, cs[p].slot, p);
    OneServedAt(start, logs, cs, view, owner, written, n, k, cs[p].slot);
    forall s: Slot
      ensures LogOf(Served(owner, n, logs, cs[p]), s) ==
        LogOf(start, s) + WrittenOf(cs, view, owner, written, n, BoundAt(cs, Positions(cs, view, n), k + 1), s)
    {
      OneServedAt(start, logs, cs, view, owner, written, n, k, s);
    }
  }

  lemma {:induction false} OneServedAt(start: Logs, logs: Logs, cs: seq<Command>, view: View, owner: Slot -> Name,
      written: set<Name>,
      n: Name, k: nat, s: Slot)
    requires Total(view) && n !in written && k < |Positions(cs, view, n)|
    requires LogOf(logs, s) == LogOf(start, s) + WrittenOf(cs, view, owner, written, n, Positions(cs, view, n)[k], s)
    ensures var p := Positions(cs, view, n)[k];
      && BoundAt(cs, Positions(cs, view, n), k + 1) <= |cs|
      && LogOf(Served(owner, n, logs, cs[p]), s) ==
         LogOf(start, s) + WrittenOf(cs, view, owner, written, n, BoundAt(cs, Positions(cs, view, n), k + 1), s)
      && (s == cs[p].slot && owner(s) == n ==> LogOf(logs, s) == LogOf(start, s) + OfSlot(cs[..p], s))
  {
    hide Positions, OfSlot;
    var p := Positions(cs, view, n)[k];
    NextOfSlot(cs, s, p);
    if RouteOf(view, s) == n {
      GapOfGroup(cs, view, n, k + 1, s);
    }
  }

  /** When a group has been written, its node counts as written. */
  lemma {:induction false} GroupWritten(start: Logs, logs: Logs, cs: seq<Command>, view: View, owner: Slot -> Name,
      written: set<Name>,
      n: Name, next: Name)
    requires Total(view) && n !in written && Writing(start, logs, cs, view, owner, written, n, |cs|)
    ensures Writing(start, logs, cs, view, owner, written + {n}, next, 0)
  {
    assert cs[..|cs|] == cs;
    forall s: Slot
      ensures LogOf(logs, s) == LogOf(start, s) + WrittenOf(cs, view, owner, written + {n}, next, 0, s)
    {
    }
  }

  // ---------------------------------------------------------------- the commands that were answered MOVED

  /** The logs while the misrouted commands before `bound` have been repeated. */
  ghost predicate Repeating(start: Logs, logs: Logs, cs: seq<Command>, view: View, owner: Slot -> Name, bound: nat)
    requires Total(view) && bound <= |cs|
  {
    forall s: Slot ::
        LogOf(logs, s) == LogOf(start, s) + OfSlot(if RouteOf(view, s) == owner(s) then cs else cs[..bound], s)
  }

  predicate Misrouted(cs: seq<Command>, view: View, owner: Slot -> Name, p: nat)
    requires Total(view) && p < |cs|
  {
    RouteOf(view, cs[p].slot) != owner(cs[p].slot)
  }

  /** Skipping commands that the first round has executed. */
  lemma {:induction false} RepeatSkips(start: Logs, logs: Logs, cs: seq<Command>, view: View, owner: Slot -> Name,
      a: nat, b: nat)
    requires Total(view) && a <= b <= |cs| && Repeating(start, logs, cs, view, owner, a)
    requires forall p :: a <= p < b ==> !Misrouted(cs, view, owner, p)
    ensures Repeating(start, logs, cs, view, owner, b)
  {
    forall s: Slot
      ensures LogOf(logs, s) == LogOf(start, s) + OfSlot(if RouteOf(view, s) == owner(s) then cs else cs[..b], s)
    {
      if RouteOf(view, s) != owner(s) {
        forall q | a <= q < b ensures cs[q].slot != s {
          assert !Misrouted(cs, view, owner, q);
        }
        NoneOfSlot(cs, s, a, b);
      }
    }
  }

  /** Repeating the next misrouted command at its owner gives it the reply that is due. */
  lemma {:induction false} RepeatOne(start: Logs, logs: Logs, cs: seq<Command>, view: View, owner: Slot -> Name, p: nat)
    requires Total(view) && p < |cs| && Repeating(start, logs, cs, view, owner, p) && Misrouted(cs, view, owner, p)
    ensures Repeating(start, Executed(logs, cs[p]), cs, view, owner, p + 1)
    ensures Value(LogOf(Executed(logs, cs[p]), cs[p].slot)) == Due(start, cs, p)
  {
    hide OfSlot;
    NextOfSlot(cs, cs[p].slot, p);
    forall s: Slot
      ensures LogOf(Executed(logs, cs[p]), s) ==
        LogOf(start, s) + OfSlot(if RouteOf(view, s) == owner(s) then cs else cs[..p + 1], s)
    {
      NextOfSlot(cs, s, p);
    }
  }

  /** At the end every slot is as if the commands had been run one by one. */
  lemma {:induction false} RepeatedAll(start: Logs, logs: Logs, cs: seq<Command>, view: View, owner: Slot -> Name)
    requires Total(view) && Repeating(start, logs, cs, view, owner, |cs|)
    ensures forall s: Slot :: LogOf(logs, s) == LogOf(RunAll(start, cs), s)
  {
    assert cs[..|cs|] == cs;
    forall s: Slot ensures LogOf(logs, s) == LogOf(RunAll(start, cs), s) {
      RunAllPerSlot(start, cs, s);
    }
  }
}
