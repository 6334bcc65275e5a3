/**
 The client's view of a Redis Cluster: the slot table with its shared node lists, its loading, and its MOVED
 patches.
 */
module ClusterNodes {
  import opened Helpers

  const SLOTS := 16384

  type Slot = s: int | 0 <= s < SLOTS

  /** A node's name, host:port; ClusterNode objects are equal exactly when their names are. */
  datatype Name = Name(host: string, port: int)

  datatype Role = Primary | Replica

  /** One entry of a CLUSTER SLOTS answer: the slots start <= s < stop, their primary and its replicas. */
  datatype Section = Section(start: Slot, stop: nat, primary: Name, replicas: seq<Name>) {
    predicate Has(s: Slot) {
      start <= s < stop
    }

    function Nodes(): seq<Name> {
      [primary] + replicas
    }
  }

  /** What asking one startup node for its slots gives. */
  datatype Answer = Unreachable | Answered(sections: seq<Section>)

  datatype LoadResult = Loaded | NoneReachable | Disagreement | NotCovered | NoPrimary

  datatype Moved = Moved(slot: Slot, target: Name)

  /** What a look-up comes to: the last one is the KeyError of a pending MOVED for a slot without a list. */
  datatype LookUp = Found(node: Name) | SlotNotCovered | MovedUnlisted

  // ---------------------------------------------------------------- what a sequence of claims means

  /** The nodes that the sections name, in order, each with the role it is named in. */
  function Mentions(claims: seq<Section>): seq<(Name, Role)> {
    if claims == [] then []
    else Mentions(claims[..|claims| - 1]) + MentionsOf(claims[|claims| - 1])
  }

  function MentionsOf(section: Section): seq<(Name, Role)> {
    [(section.primary, Primary)] +
        seq(|section.replicas|, i requires 0 <= i < |section.replicas| => (section.replicas[i], Replica))
  }

  lemma {:induction false} MentionsAppend(claims: seq<Section>, last: Section)
    ensures Mentions(claims + [last]) == Mentions(claims) + MentionsOf(last)
  {
    assert (claims + [last])[..|claims|] == claims;
  }

  /** A node's role is the one it is first named in. */
  function FirstRoles(mentions: seq<(Name, Role)>): map<Name, Role> {
    if mentions == [] then map[]
    else
      var roles, last := FirstRoles(mentions[..|mentions| - 1]), mentions[|mentions| - 1];
      if last.0 in roles then roles else roles[last.0 := last.1]
  }

  lemma {:induction false} FirstRolesAreFirst(mentions: seq<(Name, Role)>, i: nat)
    requires i < |mentions| && forall j :: 0 <= j < i ==> mentions[j].0 != mentions[i].0
    ensures mentions[i].0 in FirstRoles(mentions) && FirstRoles(mentions)[mentions[i].0] == mentions[i].1
  {
    var init := mentions[..|mentions| - 1];
    if i < |init| {
      FirstRolesAreFirst(init, i);
    } else if mentions[i].0 in FirstRoles(init) {
      FirstRolesMentioned(init, mentions[i].0);
    }
  }

  lemma {:induction false} FirstRolesMentioned(mentions: seq<(Name, Role)>, n: Name)
    ensures n in FirstRoles(mentions) ==> exists j :: 0 <= j < |mentions| && mentions[j].0 == n
  {
    if mentions != [] {
      var init := mentions[..|mentions| - 1];
      FirstRolesMentioned(init, n);
      if j :| 0 <= j < |init| && init[j].0 == n {
        assert mentions[j].0 == n;
      }
    }
  }

  /** The installed roles once a load has named nodes whose objects it shares. */
  function Overlaid(nodes: map<Name, Role>, shared: set<Name>, named: map<Name, Role>): map<Name, Role> {
    map n | n in nodes :: if n in shared && n in named then named[n] else nodes[n]
  }

  /** A load that fails changes no role exactly when it named every shared node in the role it has. */
  lemma {:induction false} FailedLoadKeepsRoles(nodes: map<Name, Role>, shared: set<Name>, named: map<Name, Role>)
    ensures Overlaid(nodes, shared, named) == nodes <==>
      forall n :: n in nodes && n in shared && n in named ==> named[n] == nodes[n]
  {
    if Overlaid(nodes, shared, named) == nodes {
      forall n | n in nodes && n in shared && n in named ensures named[n] == nodes[n] {
        assert Overlaid(nodes, shared, named)[n] == nodes[n];
      }
    }
  }

  /** The first section that claims a slot. */
  function FirstClaim(claims: seq<Section>, s: Slot): (k: Option<nat>)
    ensures k.Some? ==> k.value < |claims| && claims[k.value].Has(s)
    ensures k.Some? ==> forall j :: 0 <= j < k.value ==> !claims[j].Has(s)
    ensures k.None? ==> forall j :: 0 <= j < |claims| ==> !claims[j].Has(s)
  {
    if claims == [] then
      None
    else
      match FirstClaim(claims[..|claims| - 1], s)
      case Some(k) => Some(k)
      case None => if claims[|claims| - 1].Has(s) then Some(|claims| - 1) else None
  }

  ghost predicate Covers(claims: seq<Section>) {
    forall s: Slot :: FirstClaim(claims, s).Some?
  }

  /** The claims that are looked at: those of the answers up to the first that completes the coverage. */
  ghost function Processed(answers: seq<Answer>, claims: seq<Section>): seq<Section> {
    if answers == [] then claims
    else if answers[0].Unreachable? then Processed(answers[1..], claims)
    else if Covers(claims + answers[0].sections) then claims + answers[0].sections
    else Processed(answers[1..], claims + answers[0].sections)
  }

  /** A slot of `section` below `stop` that earlier claims gave to another primary. */
  function ConflictsBelow(claims: seq<Section>, section: Section, stop: nat): nat
    decreases stop
  {
    if stop <= section.start || stop > SLOTS then 0
    else
      var s: Slot := stop - 1;
      var k := FirstClaim(claims, s);
      ConflictsBelow(claims, section, stop - 1) +
      if k.Some? && claims[k.value].primary != section.primary then 1 else 0
  }

  /** How many claims of a slot contradict the first claim of that slot. */
  function Conflicts(claims: seq<Section>): nat {
    if claims == [] then 0
    else
      var init, last := claims[..|claims| - 1], claims[|claims| - 1];
      Conflicts(init) + ConflictsBelow(init, last, last.stop)
  }

  /** The last of the claims is the one that makes the conflicts too many. */
  predicate TooMany(claims: seq<Section>) {
    claims != [] && Conflicts(claims) > 5 && Conflicts(claims[..|claims| - 1]) <= 5
  }

  lemma {:induction false} FirstClaimAppend(claims: seq<Section>, last: Section, s: Slot)
    ensures FirstClaim(claims + [last], s) ==
      if FirstClaim(claims, s).Some? then FirstClaim(claims, s) else if last.Has(s) then Some(|claims|) else None
  {
    assert (claims + [last])[..|claims|] == claims;
  }

  lemma {:induction false} ConflictsAppend(claims: seq<Section>, last: Section)
    ensures Conflicts(claims + [last]) == Conflicts(claims) + ConflictsBelow(claims, last, last.stop)
  {
  }

  lemma {:induction false} ConflictsGrow(claims: seq<Section>, more: seq<Section>)
    ensures Conflicts(claims) <= Conflicts(claims + more)
  {
    if more == [] {
      assert claims + more == claims;
    } else {
      ConflictsGrow(claims, more[..|more| - 1]);
      assert claims + more == (claims + more[..|more| - 1]) + [more[|more| - 1]];
      ConflictsAppend(claims + more[..|more| - 1], more[|more| - 1]);
    }
  }

  lemma {:induction false} ProcessedGrows(answers: seq<Answer>, claims: seq<Section>)
    ensures claims <= Processed(answers, claims) && Conflicts(claims) <= Conflicts(Processed(answers, claims))
  {
    if answers != [] {
      if answers[0].Answered? {
        ProcessedGrows(answers[1..], claims + answers[0].sections);
        ConflictsGrow(claims, answers[0].sections);
      } else {
        ProcessedGrows(answers[1..], claims);
      }
    }
  }

  /** list.remove(x) */
  function WithoutFirst(nodes: seq<Name>, x: Name): (rest: seq<Name>)
    requires x in nodes
    ensures |rest| == |nodes| - 1
  {
    if nodes[0] == x then nodes[1..] else [nodes[0]] + WithoutFirst(nodes[1..], x)
  }

  /** What the three list updates of a MOVED inside the list come to. */
  function Patched(nodes: seq<Name>, target: Name): (patched: seq<Name>)
    requires target in nodes
    ensures |patched| == |nodes| && patched[0] == target
  {
    WithoutFirst(nodes + [nodes[0]], target)[0 := target]
  }

  lemma {:induction false} WithoutFirstMembers(nodes: seq<Name>, x: Name)
    requires x in nodes
    ensures forall n :: n in WithoutFirst(nodes, x) ==> n in nodes
  {
    if nodes[0] != x {
      WithoutFirstMembers(nodes[1..], x);
    }
  }

  lemma {:induction false} PatchedMembers(nodes: seq<Name>, target: Name)
    requires target in nodes
    ensures forall n :: n in Patched(nodes, target) ==> n in nodes
  {
    var all := nodes + [nodes[0]];
    WithoutFirstMembers(all, target);
    var removed := WithoutFirst(all, target);
    forall n | n in Patched(nodes, target) ensures n in nodes {
      assert n == target || n in removed;
      assert n in all ==> n in nodes;
    }
  }

  /** Without duplicates, removing an element closes the gap it leaves. */
  lemma {:induction false} WithoutFirstAt(nodes: seq<Name>, k: nat)
    requires k < |nodes| && forall j :: 0 <= j < k ==> nodes[j] != nodes[k]
    ensures WithoutFirst(nodes, nodes[k]) == nodes[..k] + nodes[k + 1..]
  {
    if k > 0 {
      var x, rest := nodes[k], nodes[1..];
      assert rest[k - 1] == x && x in rest;
      WithoutFirstAt(rest, k - 1);
      assert WithoutFirst(nodes, x) == [nodes[0]] + (rest[..k - 1] + rest[k..]);
      assert [nodes[0]] + rest[..k - 1] == nodes[..k];
      assert rest[k..] == nodes[k + 1..];
    } else {
      assert nodes[..0] + nodes[1..] == nodes[1..];
    }
  }

  /**
   A MOVED to another node of the list reorders it: the target comes first, the old primary last, and the
   other nodes keep their order.
   */
  lemma {:induction false} PatchedReorders(nodes: seq<Name>, k: nat)
    requires Distinct(nodes) && 0 < k < |nodes|
    ensures Patched(nodes, nodes[k]) == [nodes[k]] + nodes[1..k] + nodes[k + 1..] + [nodes[0]]
    ensures multiset(Patched(nodes, nodes[k])) == multiset(nodes)
    ensures Distinct(Patched(nodes, nodes[k]))
  {
    var target, all := nodes[k], nodes + [nodes[0]];
    WithoutFirstAt(all, k);
    assert all[..k] == [nodes[0]] + nodes[1..k] && all[k + 1..] == nodes[k + 1..] + [nodes[0]];
    var patched := Patched(nodes, target);
    assert patched == [target] + nodes[1..k] + nodes[k + 1..] + [nodes[0]];
    RotatedDistinct(nodes, k, patched);
    RotatedSame(nodes, k, patched);
  }

  lemma {:induction false} RotatedSame(nodes: seq<Name>, k: nat, patched: seq<Name>)
    requires 0 < k < |nodes|
    requires patched == [nodes[k]] + nodes[1..k] + nodes[k + 1..] + [nodes[0]]
    ensures multiset(patched) == multiset(nodes)
  {
    assert nodes == [nodes[0]] + nodes[1..k] + [nodes[k]] + nodes[k + 1..];
  }

  lemma {:induction false} RotatedDistinct(nodes: seq<Name>, k: nat, patched: seq<Name>)
    requires Distinct(nodes) && 0 < k < |nodes|
    requires patched == [nodes[k]] + nodes[1..k] + nodes[k + 1..] + [nodes[0]]
    ensures Distinct(patched)
  {
  }

  /** A MOVED to the head itself duplicates the head and loses a replica, unless the list has no replica. */
  lemma {:induction false} PatchedKeepsDistinctExactly(nodes: seq<Name>, target: Name)
    requires Distinct(nodes) && target in nodes
    ensures Distinct(Patched(nodes, target)) <==> target != nodes[0] || |nodes| == 1
  {
    var k :| 0 <= k < |nodes| && nodes[k] == target;
    if k > 0 {
      PatchedReorders(nodes, k);
    } else {
      var patched := Patched(nodes, target);
      assert WithoutFirst(nodes + [target], target) == nodes[1..] + [target];
      assert patched[0] == target == patched[|nodes| - 1];
    }
  }

  /** A slot's nodes, the primary first. Slots of one section share the object. */
  class NodeList {
    var nodes: seq<Name>

    constructor (nodes: seq<Name>)
      ensures this.nodes == nodes
    {
      this.nodes := nodes;
    }

    /** Appends the old primary, removes the target, and overwrites the head with it. */
    method Promote(target: Name)
      requires target in nodes
      modifies this
      ensures nodes == Patched(old(nodes), target)
    {
      var oldPrimary := nodes[0];
      nodes := nodes + [oldPrimary];
      nodes := WithoutFirst(nodes, target);
      nodes := nodes[0 := target];
    }
  }

  type View = map<Slot, seq<Name>>

  /** Every listed slot has at least one node. */
  predicate Routes(view: View) {
    forall s :: s in view ==> view[s] != []
  }

  /** The lists are non-empty, without duplicates, and name known nodes only. */
  predicate WellFormed(view: View, known: set<Name>) {
    forall s :: s in view ==>
      && view[s] != [] && Distinct(view[s])
      && forall n :: n in view[s] ==> n in known
  }

  /**
   The slot table after a MOVED: a target inside the slot's list is put first for every slot that shares the
   list; any other target becomes the only node of this one slot.
   */
  function MovedView(view: View, sharers: set<Slot>, e: Moved): View
    requires e.slot in view
  {
    if e.target in view[e.slot] then
      map s | s in view :: if s in sharers then Patched(view[e.slot], e.target) else view[s]
    else
      view[e.slot := [e.target]]
  }

  /** After a MOVED the slot is routed to the target, and no slot has lost its route. */
  lemma {:induction false} MovedRoutes(view: View, sharers: set<Slot>, e: Moved)
    requires e.slot in view && e.slot in sharers && Routes(view)
    ensures var moved := MovedView(view, sharers, e);
      && moved.Keys == view.Keys && Routes(moved) && moved[e.slot][0] == e.target
      && forall s :: s in view && s !in sharers ==> moved[s] == view[s]
  {
  }

  /**
   The lists stay non-empty, duplicate-free and inside the node cache exactly when the target was not already
   the head of the slot's list, or stood in it alone.
   */
  lemma {:induction false} MovedWellFormed(view: View, sharers: set<Slot>, e: Moved, known: set<Name>)
    requires e.slot in view && e.slot in sharers && WellFormed(view, known)
    ensures WellFormed(MovedView(view, sharers, e), known + {e.target}) <==>
        e.target != view[e.slot][0] || |view[e.slot]| == 1
  {
    hide Patched, WithoutFirst;
    var before, moved := view[e.slot], MovedView(view, sharers, e);
    if e.target in before {
      PatchedKeepsDistinctExactly(before, e.target);
      PatchedMembers(before, e.target);
      assert moved[e.slot] == Patched(before, e.target);
    }
  }

  // ---------------------------------------------------------------- runs of MOVED

  /** The lists of the slots, and which slots share a list object. */
  datatype Aliased = Aliased(view: View, sharers: map<Slot, set<Slot>>)

  predicate Aliases(t: Aliased) {
    t.sharers.Keys == t.view.Keys && forall s :: s in t.view ==> s in t.sharers[s]
  }

  /** A patched list stays shared; a replaced one is the slot's own. */
  function MovedSharers(sharers: map<Slot, set<Slot>>, slot: Slot, patched: bool): map<Slot, set<Slot>> {
    if patched then sharers else map s | s in sharers :: if s == slot then {slot} else sharers[s] - {slot}
  }

  function AfterMoved(t: Aliased, e: Moved): Aliased
    requires Aliases(t) && e.slot in t.view
  {
    Aliased(MovedView(t.view, t.sharers[e.slot], e), MovedSharers(t.sharers, e.slot, e.target in t.view[e.slot]))
  }

  ghost predicate MovedTrace(tables: seq<Aliased>, moves: seq<Moved>) {
    && |tables| == |moves| + 1 && (forall i :: 0 <= i < |tables| ==> Aliases(tables[i]))
    && forall i :: 0 <= i < |moves| ==>
        moves[i].slot in tables[i].view && tables[i + 1] == AfterMoved(tables[i], moves[i])
  }

  function KnownAfter(known: set<Name>, moves: seq<Moved>, n: nat): set<Name>
    requires n <= |moves|
  {
    if n == 0 then known else KnownAfter(known, moves, n - 1) + {moves[n - 1].target}
  }

  /** The MOVED names another node than the one the slot leads to already, or the only one. */
  predicate Elsewhere(view: View, e: Moved) {
    e.slot in view && view[e.slot] != [] && (e.target != view[e.slot][0] || |view[e.slot]| == 1)
  }

  /**
   Over any run of MOVEDs, all lists are non-empty, duplicate-free and within the node cache at every moment
   exactly when no MOVED names the head of a longer list.
   */
  lemma {:induction false} MovedRuns(tables: seq<Aliased>, moves: seq<Moved>, known: set<Name>, n: nat)
    requires MovedTrace(tables, moves) && WellFormed(tables[0].view, known) && n <= |moves|
    ensures (forall i :: 0 <= i <= n ==> WellFormed(tables[i].view, KnownAfter(known, moves, i))) <==>
      (forall i :: 0 <= i < n ==> Elsewhere(tables[i].view, moves[i]))
  {
    hide WellFormed, AfterMoved, Elsewhere, Aliases;
    if n > 0 {
      MovedRuns(tables, moves, known, n - 1);
      var t, e := tables[n - 1], moves[n - 1];
      if WellFormed(t.view, KnownAfter(known, moves, n - 1)) {
        MovedStep(t, e, KnownAfter(known, moves, n - 1));
        assert tables[n - 1 + 1] == AfterMoved(t, e);
      }
    }
  }

  lemma {:induction false} MovedStep(t: Aliased, e: Moved, known: set<Name>)
    requires Aliases(t) && e.slot in t.view && WellFormed(t.view, known)
    ensures WellFormed(AfterMoved(t, e).view, known + {e.target}) <==> Elsewhere(t.view, e)
  {
    MovedWellFormed(t.view, t.sharers[e.slot], e, known);
  }

  /** The slots that hold the same list object as `slot`. */
  ghost function SharersIn(slots: map<Slot, NodeList>, slot: Slot): set<Slot> {
    set s | s in slots && slot in slots && slots[s] == slots[slot]
  }

  ghost function AllSharers(slots: map<Slot, NodeList>): map<Slot, set<Slot>> {
    map s | s in slots :: SharersIn(slots, s)
  }

  lemma {:induction false} SharersRebound(slots: map<Slot, NodeList>, slot: Slot, list: NodeList)
    requires slot in slots && list !in slots.Values
    ensures AllSharers(slots[slot := list]) == MovedSharers(AllSharers(slots), slot, false)
  {
    var all, after := AllSharers(slots), AllSharers(slots[slot := list]);
    forall s | s in slots ensures after[s] == if s == slot then {slot} else all[s] - {slot} {
      assert slots[s] in slots.Values && slots[slot] in slots.Values;
    }
  }

  class NodesManager {
    var nodesCache: map<Name, Role>
    var slotsCache: map<Slot, NodeList>
    var defaultNode: Option<Name>
    var movedException: Option<Moved>
    /** The installed nodes that have a connection. Their objects are used again by the next load. */
    var connected: set<Name>
    const requireFullCoverage: bool

    constructor (requireFullCoverage: bool)
      ensures this.requireFullCoverage == requireFullCoverage
      ensures nodesCache == map[] && slotsCache == map[] && defaultNode == None && movedException == None
          && connected == {}
    {
      this.requireFullCoverage := requireFullCoverage;
      nodesCache, slotsCache, defaultNode, movedException, connected := map[], map[], None, None, {};
    }

    /** The slot table is the first-claim table of `claims`; slots of one claim share one list object. */
    ghost predicate Table(slots: map<Slot, NodeList>, nodes: map<Name, Role>, claims: seq<Section>)
      reads slots.Values
    {
      && (forall s: Slot :: s in slots <==> FirstClaim(claims, s).Some?)
      && (forall s :: s in slots ==>
            var claim := claims[FirstClaim(claims, s).value]; slots[s].nodes == [claim.primary] + claim.replicas)
      && (forall s, t :: s in slots && t in slots ==>
            (slots[s] == slots[t] <==> FirstClaim(claims, s) == FirstClaim(claims, t)))
      && (forall k, n :: 0 <= k < |claims| && n in claims[k].Nodes() ==> n in nodes)
    }

    /**
     The load in progress has named nodes in these roles, and the installed cache, which was `before`,
     shows the roles of the objects the two share.
     */
    ghost predicate Sharing(before: map<Name, Role>, nodes: map<Name, Role>, mentions: seq<(Name, Role)>)
      reads this
    {
      nodes == FirstRoles(mentions) && nodesCache == Overlaid(before, connected, nodes)
    }

    /**
     _get_or_create_cluster_node: a node keeps the role it was first named in. The object of an installed node
     with a connection is used again, and takes that role at once.
     */
    method GetOrCreateClusterNode(nodes: map<Name, Role>, name: Name, role: Role, ghost before: map<Name, Role>,
        ghost mentions: seq<(Name, Role)>)
      returns (nodes': map<Name, Role>)
      requires Sharing(before, nodes, mentions)
      modifies `nodesCache
      ensures Sharing(before, nodes', mentions + [(name, role)])
      ensures name in nodes' && forall n :: n in nodes ==> n in nodes' && nodes'[n] == nodes[n]
    {
      assert (mentions + [(name, role)])[..|mentions|] == mentions;
      nodes' := nodes;
      if name !in nodes {
        if name in nodesCache && name in connected {
          nodesCache := nodesCache[name := role];
        }
        nodes' := nodes[name := role];
      }
    }

    /** The nodes of one section: its primary, then its replicas. */
    method CreateNodes(nodes: map<Name, Role>, section: Section, ghost before: map<Name, Role>,
        ghost mentions: seq<(Name, Role)>)
      returns (nodes': map<Name, Role>)
      requires Sharing(before, nodes, mentions)
      modifies `nodesCache
      ensures Sharing(before, nodes', mentions + MentionsOf(section))
      ensures forall n :: n in nodes ==> n in nodes' && nodes'[n] == nodes[n]
      ensures forall n :: n in section.Nodes() ==> n in nodes'
    {
      hide Sharing;
      ghost var all := MentionsOf(section);
      nodes' := GetOrCreateClusterNode(nodes, section.primary, Primary, before, mentions);
      assert all[..1] == [(section.primary, Primary)];
      for r := 0 to |section.replicas|
        invariant Sharing(before, nodes', mentions + all[..r + 1])
        invariant forall n :: n in nodes ==> n in nodes' && nodes'[n] == nodes[n]
        invariant section.primary in nodes' && forall j :: 0 <= j < r ==> section.replicas[j] in nodes'
      {
        assert mentions + all[..r + 2] == mentions + all[..r + 1] + [(section.replicas[r], Replica)];
        nodes' := GetOrCreateClusterNode(nodes', section.replicas[r], Replica, before, mentions + all[..r + 1]);
      }
      assert all[..|section.replicas| + 1] == all;
    }

    /** Adds the claim of one section, slot by slot. */
    method Claim(slots: map<Slot, NodeList>, nodes: map<Name, Role>, section: Section, disagreements: nat,
                 ghost before: map<Name, Role>, ghost claims: seq<Section>)
      returns (slots': map<Slot, NodeList>, nodes': map<Name, Role>, disagreements': nat, agreed: bool)
      requires section.stop <= SLOTS && disagreements == Conflicts(claims) <= 5
      requires Table(slots, nodes, claims) && Sharing(before, nodes, Mentions(claims))
      modifies `nodesCache
      ensures Sharing(before, nodes', Mentions(claims + [section]))
      ensures agreed ==>
          Table(slots', nodes', claims + [section]) && disagreements' == Conflicts(claims + [section]) <= 5
      ensures !agreed ==> Conflicts(claims + [section]) > 5
      ensures forall o :: o in slots'.Values ==> o in slots.Values || fresh(o)
    {
      hide FirstClaim, ConflictsBelow, Conflicts, Table, Sharing, Claimed, Mentions, MentionsOf;
      nodes' := CreateNodes(nodes, section, before, Mentions(claims));
      MentionsAppend(claims, section);
      var list := new NodeList(section.Nodes());
      slots', disagreements', agreed := slots, disagreements, true;
      var i: int := section.start;
      ConflictsAppend(claims, section);
      NoConflicts(claims, section);
      NoneClaimed(slots, list, section.start);
      while i < section.stop
        invariant section.start <= i && (i <= section.stop || i == section.start)
        invariant Claimed(slots, slots', list, section.start, i)
        invariant disagreements' == disagreements + ConflictsBelow(claims, section, i) <= 5
        invariant Table(slots, nodes, claims) && list.nodes == section.Nodes()
        invariant Sharing(before, nodes', Mentions(claims + [section]))
      {
        Holder(slots, nodes, claims, i);
        OneMoreClaimed(slots, slots', list, section.start, i);
        ConflictsStep(claims, section, i);
        if i !in slots' {
          slots' := slots'[i := list];
        } else if slots'[i].nodes[0] != section.primary {
          disagreements' := disagreements' + 1;
          if disagreements' > 5 {
            agreed := false;
            ConflictsBelowGrow(claims, section, i + 1, section.stop);
            return;
          }
        }
        i := i + 1;
      }
      AllClaimed(slots, slots', list, section.start, i, section.stop);
      assert list !in slots.Values;
      TableGrows(slots, slots', nodes, nodes', claims, section, list);
    }

    /** check_slots_coverage */
    method CheckSlotsCoverage(slots: map<Slot, NodeList>) returns (covered: bool)
      ensures covered <==> forall s: Slot :: s in slots
    {
      for i := 0 to SLOTS
        invariant forall s: Slot :: s < i ==> s in slots
      {
        if i !in slots {
          return false;
        }
      }
      return true;
    }

    /** The loop over the sections of one answer; `examined` are the claims so far, up to one too many conflicts. */
    method ClaimAll(slots: map<Slot, NodeList>, nodes: map<Name, Role>, sections: seq<Section>, disagreements: nat,
                    ghost before: map<Name, Role>, ghost claims: seq<Section>)
      returns (slots': map<Slot, NodeList>, nodes': map<Name, Role>, disagreements': nat, agreed: bool,
          ghost examined: seq<Section>)
      requires forall k :: 0 <= k < |sections| ==> sections[k].stop <= SLOTS
      requires Table(slots, nodes, claims) && disagreements == Conflicts(claims) <= 5
          && Sharing(before, nodes, Mentions(claims))
      modifies `nodesCache
      ensures Sharing(before, nodes', Mentions(examined))
      ensures agreed ==>
          examined == claims + sections && Table(slots', nodes', examined) && disagreements' == Conflicts(examined) <= 5
      ensures !agreed ==> examined <= claims + sections && TooMany(examined)
      ensures forall o :: o in slots'.Values ==> o in slots.Values || fresh(o)
    {
      hide Table, Conflicts, Sharing, Mentions;
      slots', nodes', disagreements', agreed, examined := slots, nodes, disagreements, true, claims;
      assert claims + sections[..0] == claims;
      for k := 0 to |sections|
        invariant examined == claims + sections[..k] && Sharing(before, nodes', Mentions(examined))
        invariant Table(slots', nodes', examined) && disagreements' == Conflicts(examined) <= 5
        invariant forall o :: o in slots'.Values ==> o in slots.Values || fresh(o)
      {
        ghost var sofar := examined;
        examined := sofar + [sections[k]];
        assert examined == claims + sections[..k + 1] && examined[..|sofar|] == sofar;
        slots', nodes', disagreements', agreed := Claim(slots', nodes', sections[k], disagreements', before, sofar);
        if !agreed {
          assert examined <= claims + sections;
          return;
        }
      }
      assert claims + sections[..|sections|] == claims + sections;
    }

    /**
     The startup nodes are asked in turn until their claims cover all slots. Nothing is installed yet, but the
     installed nodes that are named take their new roles.
     */
    method AskStartupNodes(answers: seq<Answer>)
      returns (r: LoadResult, slots: map<Slot, NodeList>, nodes: map<Name, Role>, first: Option<Name>,
               fullyCovered: bool, ghost examined: seq<Section>)
      requires forall a, k :: 0 <= a < |answers| && answers[a].Answered? && 0 <= k < |answers[a].sections| ==>
        answers[a].sections[k].stop <= SLOTS
      modifies `nodesCache
      ensures r in {Loaded, NoneReachable, Disagreement}
      ensures examined <= Processed(answers, []) && (r != Disagreement ==> examined == Processed(answers, []))
      ensures nodesCache == Overlaid(old(nodesCache), connected, FirstRoles(Mentions(examined)))
      ensures r == NoneReachable <==> forall a :: 0 <= a < |answers| ==> answers[a].Unreachable?
      ensures r == NoneReachable ==> nodesCache == old(nodesCache)
      ensures r == Disagreement <==> r != NoneReachable && Conflicts(Processed(answers, [])) > 5
      ensures r == Disagreement ==> TooMany(examined)
      ensures r == Loaded ==>
        && Table(slots, nodes, examined) && Conflicts(examined) <= 5 && nodes == FirstRoles(Mentions(examined))
        && fullyCovered == Covers(examined) && (forall o :: o in slots.Values ==> fresh(o))
        && first == if examined == [] then None else Some(examined[0].primary)
    {
      hide Table, Conflicts, FirstClaim, Covers, Mentions, FirstRoles, Overlaid;
      slots, nodes, examined, first := map[], map[], [], None;
      var reachable, disagreements: nat := false, 0;
      fullyCovered := false;
      EmptyTable();
      NoClaims();
      NothingNamed(nodesCache, connected);
      var a := 0;
      while a < |answers| && !fullyCovered
        invariant 0 <= a <= |answers|
        invariant Table(slots, nodes, examined) && disagreements == Conflicts(examined) <= 5
        invariant Sharing(old(nodesCache), nodes, Mentions(examined))
        invariant forall o :: o in slots.Values ==> fresh(o)
        invariant first == if examined == [] then None else Some(examined[0].primary)
        invariant reachable <==> exists b :: 0 <= b < a && answers[b].Answered?
        invariant !reachable ==> examined == [] && nodesCache == old(nodesCache)
        invariant fullyCovered ==> reachable
        invariant fullyCovered == Covers(examined)
        invariant Processed(answers, []) == if fullyCovered then examined else Processed(answers[a..], examined)
      {
        var answer := answers[a];
        a := a + 1;
        assert answers[a - 1..][1..] == answers[a..];
        match answer
        case Unreachable =>
          continue;
        case Answered(sections) =>
          assert answers[a - 1].Answered?;
          reachable := true;
          if first == None && sections != [] {
            first := Some(sections[0].primary);
          }
          var agreed;
          ghost var claims := examined;
          slots, nodes, disagreements, agreed, examined :=
            ClaimAll(slots, nodes, sections, disagreements, old(nodesCache), claims);
          if !agreed {
            ProcessedGrows(answers[a..], claims + sections);
            EnoughConflicts(examined, claims + sections);
            r := Disagreement;
            return;
          }
          fullyCovered := CheckSlotsCoverage(slots);
          CoveredTable(slots, nodes, examined);
      }
      assert answers[|answers|..] == [];
      r := if reachable then Loaded else NoneReachable;
    }

    /**
     initialize, given what the startup nodes answer in turn. The table that is installed is the first-claim
     table of the `examined` claims. A failed load leaves the installed table alone, except that the nodes it named
     have changed roles; but when nothing at all was claimed, and that is allowed, the empty table is installed and
     the search for a default node fails.
     */
    method Initialize(answers: seq<Answer>) returns (r: LoadResult, ghost examined: seq<Section>)
      requires forall a, k :: 0 <= a < |answers| && answers[a].Answered? && 0 <= k < |answers[a].sections| ==>
        answers[a].sections[k].stop <= SLOTS
      modifies this
      ensures examined <= Processed(answers, []) && (!r.Disagreement? ==> examined == Processed(answers, []))
      ensures r.Loaded? ==> Table(slotsCache, nodesCache, examined) && Conflicts(examined) <= 5
      ensures r.Loaded? ==> nodesCache == FirstRoles(Mentions(examined)) && connected == nodesCache.Keys
      ensures r.Loaded? ==> examined != [] && movedException == None && defaultNode == Some(examined[0].primary)
      ensures r.Loaded? ==> forall o :: o in slotsCache.Values ==> fresh(o)
      ensures r.Loaded? && requireFullCoverage ==> Covers(examined)
      ensures r.NoneReachable? <==> forall a :: 0 <= a < |answers| ==> answers[a].Unreachable?
      ensures r.Disagreement? <==> !r.NoneReachable? && Conflicts(Processed(answers, [])) > 5
      ensures r.Disagreement? ==> TooMany(examined)
      ensures r.NotCovered? <==>
        !r.NoneReachable? && !r.Disagreement? && requireFullCoverage && !Covers(Processed(answers, []))
      ensures r.NoPrimary? <==> !r.NoneReachable? && !requireFullCoverage && Processed(answers, []) == []
      ensures r.NoPrimary? ==>
        && nodesCache == map[] && slotsCache == map[] && connected == {}
        && defaultNode == old(defaultNode) && movedException == old(movedException)
      ensures r.NoneReachable? ==> nodesCache == old(nodesCache)
      ensures !r.Loaded? && !r.NoPrimary? ==>
        && slotsCache == old(slotsCache) && defaultNode == old(defaultNode) && connected == old(connected)
        && movedException == old(movedException)
        && nodesCache == Overlaid(old(nodesCache), connected, FirstRoles(Mentions(examined)))
    {
      hide Table, Conflicts, FirstClaim, Covers, Mentions, FirstRoles, Overlaid, Processed;
      var tmpSlots, tmpNodes, first, fullyCovered;
      r, tmpSlots, tmpNodes, first, fullyCovered, examined := AskStartupNodes(answers);
      NoClaims();
      if r != Loaded {
        return;
      }
      if !fullyCovered && requireFullCoverage {
        return NotCovered, examined;
      }
      nodesCache, slotsCache, connected := tmpNodes, tmpSlots, tmpNodes.Keys;
      if first == None {
        NothingListed(tmpSlots, tmpNodes);
        return NoPrimary, examined;
      }
      defaultNode := first;
      movedException := None;
    }

    /** get_redis_connection: a node that had none is connected, and its object is shared with the next load. */
    method CreateRedisConnection(node: Name)
      modifies `connected
      ensures connected == old(connected) + {node} && View() == old(View())
    {
      connected := connected + {node};
    }

    // ---------------------------------------------------------------- MOVED

    /** The node names listed for each covered slot. */
    ghost function View(): (view: View)
      reads `slotsCache, slotsCache.Values
    {
      map s | s in slotsCache :: slotsCache[s].nodes
    }

    /** The slots that hold the same list object as `slot`. */
    ghost function Sharers(slot: Slot): set<Slot>
      reads `slotsCache
    {
      SharersIn(slotsCache, slot)
    }

    function Head(s: Slot): Name
      reads this, slotsCache.Values
      requires s in slotsCache && slotsCache[s].nodes != []
    {
      slotsCache[s].nodes[0]
    }

    /** The target becomes a primary, and the primary it displaces within its list a replica. */
    function MovedRoles(nodes: map<Name, Role>, list: seq<Name>, target: Name): map<Name, Role> {
      var promoted := nodes[target := Primary];
      if target in list && list[0] in promoted then promoted[list[0] := Replica] else promoted
    }

    /**
     _update_moved_slots. A target that is already in the slot's list is put first in that list object, so for
     every slot that shares it; any other target replaces the list of this one slot. A slot without a list raises,
     when the target has become a primary already, and leaves the MOVED pending.
     */
    method UpdateMovedSlots() returns (listed: bool)
      requires movedException.Some?
      modifies this, if PendingListed() then {slotsCache[movedException.value.slot]} else {}
      ensures listed == old(PendingListed())
      ensures !listed ==>
        && slotsCache == old(slotsCache) && View() == old(View()) && defaultNode == old(defaultNode)
        && movedException == old(movedException)
        && nodesCache == old(nodesCache)[movedException.value.target := Primary]
      ensures listed ==> movedException == None
      ensures listed ==>
        View() == MovedView(old(View()), old(Sharers(movedException.value.slot)), old(movedException.value))
      ensures listed ==>
        AllSharers(slotsCache) == MovedSharers(old(AllSharers(slotsCache)), old(movedException.value.slot),
          old(PendingList().Some? && movedException.value.target in PendingList().value))
      ensures slotsCache.Keys == old(slotsCache.Keys) && connected == old(connected)
      ensures forall o :: o in slotsCache.Values ==> o in old(slotsCache.Values) || fresh(o)
      ensures listed ==>
        && nodesCache == MovedRoles(old(nodesCache), old(PendingList()).value, old(movedException.value.target))
        && defaultNode == MovedDefault(old(defaultNode), old(PendingList()).value, old(movedException.value.target))
    {
      hide WithoutFirst, Patched, MovedView, AllSharers, View, Sharers;
      var e := movedException.value;
      nodesCache := nodesCache[e.target := Primary];
      if e.slot !in slotsCache {
        return false;
      }
      if e.target in slotsCache[e.slot].nodes {
        PutFirst(e);
      } else {
        Rebind(e);
      }
      movedException := None;
      return true;
    }

    /** The target is a replica of the slot: their list is patched, and the primary becomes a replica. */
    method PutFirst(e: Moved)
      requires e.slot in slotsCache && e.target in slotsCache[e.slot].nodes
      modifies `nodesCache, `defaultNode, slotsCache[e.slot]
      ensures View() == MovedView(old(View()), old(Sharers(e.slot)), e)
      ensures old(e.target in nodesCache && nodesCache[e.target] == Primary) ==>
        nodesCache == MovedRoles(old(nodesCache), old(slotsCache[e.slot].nodes), e.target)
      ensures defaultNode == MovedDefault(old(defaultNode), old(slotsCache[e.slot].nodes), e.target)
    {
      hide WithoutFirst, Patched, MovedView;
      ghost var before, sharers := View(), Sharers(e.slot);
      var list := slotsCache[e.slot];
      var oldPrimary := list.nodes[0];
      if oldPrimary in nodesCache {
        nodesCache := nodesCache[oldPrimary := Replica];
      }
      list.Promote(e.target);
      if defaultNode == Some(oldPrimary) {
        defaultNode := Some(e.target);
      }
      ListPatched(before, sharers, e, list);
    }

    /** The target is no node of the slot: the slot alone gets a list with nothing else. */
    method Rebind(e: Moved)
      requires e.slot in slotsCache && e.target !in slotsCache[e.slot].nodes
      modifies `slotsCache
      ensures View() == MovedView(old(View()), old(Sharers(e.slot)), e)
      ensures AllSharers(slotsCache) == MovedSharers(old(AllSharers(slotsCache)), e.slot, false)
      ensures slotsCache.Keys == old(slotsCache.Keys)
      ensures forall o :: o in slotsCache.Values ==> o in old(slotsCache.Values) || fresh(o)
    {
      hide WithoutFirst, Patched, MovedView, AllSharers;
      ghost var before, sharers := View(), Sharers(e.slot);
      var rebound := new NodeList([e.target]);
      slotsCache := slotsCache[e.slot := rebound];
      ListRebound(before, sharers, e);
      SharersRebound(old(slotsCache), e.slot, rebound);
    }

    /** A MOVED is pending, for a slot that has a list. */
    predicate PendingListed()
      reads `movedException, `slotsCache
    {
      movedException.Some? && movedException.value.slot in slotsCache
    }

    ghost function PendingList(): Option<seq<Name>>
      reads `movedException, `slotsCache, slotsCache.Values
    {
      if PendingListed() then Some(slotsCache[movedException.value.slot].nodes) else None
    }

    /**
     After a MOVED its target is a primary, and a primary that it displaced within its list a replica; a target that
     headed its list already becomes a replica. No other role changes, and the default node follows the displacement.
     */
    lemma {:induction false} MovedRolesExactly(nodes: map<Name, Role>, list: seq<Name>, target: Name,
        node: Option<Name>)
      ensures MovedRoles(nodes, list, target).Keys == nodes.Keys + {target}
      ensures MovedRoles(nodes, list, target)[target] == if list != [] && list[0] == target then Replica else Primary
      ensures target in list && list[0] in nodes && list[0] != target ==>
        MovedRoles(nodes, list, target)[list[0]] == Replica
      ensures forall n :: n in nodes && n != target && (target in list ==> n != list[0]) ==>
        MovedRoles(nodes, list, target)[n] == nodes[n]
      ensures target in list && node == Some(list[0]) ==> MovedDefault(node, list, target) == Some(target)
      ensures target !in list || node != Some(list[0]) ==> MovedDefault(node, list, target) == node
    {
    }

    lemma {:induction false} ListRebound(before: View, sharers: set<Slot>, e: Moved)
      requires e.slot in slotsCache && before.Keys == slotsCache.Keys && e.target !in before[e.slot]
      requires slotsCache[e.slot].nodes == [e.target]
      requires forall s :: s in slotsCache && s != e.slot ==> slotsCache[s].nodes == before[s]
      ensures View() == MovedView(before, sharers, e)
    {
    }

    lemma {:induction false} ListPatched(before: View, sharers: set<Slot>, e: Moved, list: NodeList)
      requires e.slot in slotsCache && slotsCache[e.slot] == list && sharers == Sharers(e.slot)
          && before.Keys == slotsCache.Keys
      requires e.target in before[e.slot] && list.nodes == Patched(before[e.slot], e.target)
      requires forall s :: s in slotsCache && slotsCache[s] != list ==> slotsCache[s].nodes == before[s]
      ensures View() == MovedView(before, sharers, e)
    {
    }

    /** The default node follows a primary that was displaced within its list. */
    function MovedDefault(node: Option<Name>, list: seq<Name>, target: Name): Option<Name> {
      if target in list && node == Some(list[0]) then Some(target) else node
    }

    /**
     get_node_from_slot without replica reads: applies a pending MOVED, then answers with the head of the slot's
     list. A MOVED pending for a slot without a list makes every look-up raise, until a table is loaded.
     */
    method GetNodeFromSlot(slot: Slot) returns (r: LookUp)
      modifies this, if PendingListed() then {slotsCache[movedException.value.slot]} else {}
      ensures r == MovedUnlisted <==> old(movedException.Some? && !PendingListed())
      ensures r == MovedUnlisted ==>
        && slotsCache == old(slotsCache) && View() == old(View()) && defaultNode == old(defaultNode)
        && movedException == old(movedException)
        && nodesCache == old(nodesCache)[movedException.value.target := Primary]
      ensures r != MovedUnlisted ==> movedException == None
      ensures old(movedException).None? ==>
        && slotsCache == old(slotsCache) && View() == old(View()) && nodesCache == old(nodesCache)
        && defaultNode == old(defaultNode)
      ensures old(PendingListed()) ==>
        && View() == MovedView(old(View()), old(Sharers(movedException.value.slot)), old(movedException.value))
        && nodesCache == MovedRoles(old(nodesCache), old(PendingList()).value, old(movedException.value.target))
        && defaultNode == MovedDefault(old(defaultNode), old(PendingList()).value, old(movedException.value.target))
      ensures slotsCache.Keys == old(slotsCache.Keys) && connected == old(connected)
      ensures forall o :: o in slotsCache.Values ==> o in old(slotsCache.Values) || fresh(o)
      ensures r != MovedUnlisted ==>
        r == if slot in View() && View()[slot] != [] then Found(View()[slot][0]) else SlotNotCovered
    {
      if movedException.Some? {
        var listed := UpdateMovedSlots();
        if !listed {
          return MovedUnlisted;
        }
      }
      if slot !in slotsCache || slotsCache[slot].nodes == [] {
        return SlotNotCovered;
      }
      r := Found(slotsCache[slot].nodes[0]);
    }

    lemma {:induction false} NothingNamed(nodes: map<Name, Role>, shared: set<Name>)
      ensures FirstRoles(Mentions([])) == map[] && Overlaid(nodes, shared, map[]) == nodes
    {
    }

    lemma {:induction false} EnoughConflicts(examined: seq<Section>, all: seq<Section>)
      requires examined <= all && Conflicts(examined) > 5
      ensures Conflicts(all) > 5
    {
      assert all == examined + all[|examined|..];
      ConflictsGrow(examined, all[|examined|..]);
    }

    lemma {:induction false} EmptyTable()
      ensures Table(map[], map[], []) && Conflicts([]) == 0
    {
    }

    lemma {:induction false} NoClaims()
      ensures Conflicts([]) == 0 && !Covers([]) && FirstRoles(Mentions([])) == map[]
    {
      var s: Slot := 0;
      assert FirstClaim([], s).None?;
    }

    lemma {:induction false} NothingListed(slots: map<Slot, NodeList>, nodes: map<Name, Role>)
      requires Table(slots, nodes, [])
      ensures slots == map[]
    {
      assert forall s: Slot :: FirstClaim([], s).None?;
    }

    lemma {:induction false} CoveredTable(slots: map<Slot, NodeList>, nodes: map<Name, Role>, claims: seq<Section>)
      requires Table(slots, nodes, claims)
      ensures (forall s: Slot :: s in slots) <==> Covers(claims)
    {
    }

    /** The claim of the slots start..stop has been entered where there was none. */
    ghost predicate Claimed(slots: map<Slot, NodeList>, slots': map<Slot, NodeList>, list: NodeList, start: Slot,
        stop: int) {
      && (forall s :: s in slots ==> s in slots' && slots'[s] == slots[s])
      && (forall s :: s in slots' && s !in slots ==> slots'[s] == list && start <= s < stop)
      && (forall s: Slot :: start <= s < stop ==> s in slots')
    }

    lemma {:induction false} NoneClaimed(slots: map<Slot, NodeList>, list: NodeList, start: Slot)
      ensures Claimed(slots, slots, list, start, start)
    {
    }

    lemma {:induction false} OneMoreClaimed(slots: map<Slot, NodeList>, slots': map<Slot, NodeList>, list: NodeList,
        start: Slot, i: Slot)
      requires Claimed(slots, slots', list, start, i) && start <= i
      ensures i in slots' <==> i in slots
      ensures i in slots' ==> slots'[i] == slots[i] && Claimed(slots, slots', list, start, i + 1)
      ensures i !in slots' ==> Claimed(slots, slots'[i := list], list, start, i + 1)
    {
    }

    lemma {:induction false} AllClaimed(slots: map<Slot, NodeList>, slots': map<Slot, NodeList>, list: NodeList,
        start: Slot, i: int, stop: nat)
      requires Claimed(slots, slots', list, start, i) && (i == stop || (i == start && stop <= i))
      ensures Claimed(slots, slots', list, start, stop)
      ensures forall o :: o in slots'.Values ==> o in slots.Values || o == list
    {
    }

    lemma {:induction false} Holder(slots: map<Slot, NodeList>, nodes: map<Name, Role>, claims: seq<Section>, s: Slot)
      requires Table(slots, nodes, claims)
      ensures s in slots <==> FirstClaim(claims, s).Some?
      ensures s in slots ==> |slots[s].nodes| > 0 && slots[s].nodes[0] == claims[FirstClaim(claims, s).value].primary
    {
    }

    lemma {:induction false} TableGrows(
        slots: map<Slot, NodeList>, slots': map<Slot, NodeList>, nodes: map<Name, Role>, nodes': map<Name, Role>,
        claims: seq<Section>, section: Section, list: NodeList)
      requires Table(slots, nodes, claims) && Claimed(slots, slots', list, section.start, section.stop)
      requires list.nodes == section.Nodes() && list !in slots.Values
      requires forall n :: n in nodes || n in section.Nodes() ==> n in nodes'
      ensures Table(slots', nodes', claims + [section])
    {
      hide FirstClaim, Claimed;
      forall s: Slot
        ensures var claim := FirstClaim(claims + [section], s);
          if s in slots then s in slots' && slots'[s] == slots[s] && claim == FirstClaim(claims, s) && claim.Some?
          else if s in slots' then slots'[s] == list && claim == Some(|claims|)
          else claim.None?
      {
        OneSlotGrows(slots, slots', nodes, claims, section, list, s);
      }
    }

    /** A slot keeps its list and its claim, or gets the new ones, or has none. */
    lemma {:induction false} OneSlotGrows(slots: map<Slot, NodeList>, slots': map<Slot, NodeList>,
        nodes: map<Name, Role>, claims: seq<Section>, section: Section, list: NodeList, s: Slot)
      requires Table(slots, nodes, claims) && Claimed(slots, slots', list, section.start, section.stop)
      ensures var claim := FirstClaim(claims + [section], s);
        if s in slots then s in slots' && slots'[s] == slots[s] && claim == FirstClaim(claims, s) && claim.Some?
        else if s in slots' then slots'[s] == list && claim == Some(|claims|)
        else claim.None?
    {
      hide FirstClaim;
      FirstClaimAppend(claims, section, s);
    }
  }

  lemma {:induction false} NoConflicts(claims: seq<Section>, section: Section)
    ensures ConflictsBelow(claims, section, section.start) == 0
    ensures section.stop <= section.start ==> ConflictsBelow(claims, section, section.stop) == 0
  {
  }

  lemma {:induction false} ConflictsStep(claims: seq<Section>, section: Section, i: Slot)
    requires section.start <= i
    ensures ConflictsBelow(claims, section, i + 1) == ConflictsBelow(claims, section, i) +
      if FirstClaim(claims, i).Some? && claims[FirstClaim(claims, i).value].primary != section.primary then 1 else 0
  {
  }

  lemma {:induction false} ConflictsBelowGrow(claims: seq<Section>, section: Section, a: nat, b: nat)
    requires a <= b <= SLOTS
    ensures ConflictsBelow(claims, section, a) <= ConflictsBelow(claims, section, b)
    decreases b
  {
    if a < b {
      ConflictsBelowGrow(claims, section, a, b - 1);
    }
  }
}
