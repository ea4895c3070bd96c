/**
 * The Machina finite-state machine: a list of nodes (states), each with a
 * duration and outgoing edges carrying probabilities, and a fixed table of
 * MAX_ACTIVE_NODES slots holding the nodes that are active. Running the
 * machine repeatedly exits the active node that ends first and enters some
 * of its successors.
 *
 * A node is shared between the machine's list, the slot table and the
 * edges that point at it; the model names each node by an identifier and
 * keeps the node records in one map, so that updating a record is seen
 * through every reference. rand() is an oracle: the k-th call returns
 * rand(k).
 */
module MachinaMachine {
  import opened Wrappers

  const MAX_ACTIVE_NODES: nat := 128
  /** RAND_MAX of the C library (glibc). */
  const RAND_MAX: nat := 0x7FFF_FFFF

  type NodeId = nat

  datatype Edge = Edge(head: NodeId, probability: real)

  /** A node record: enter_time is meaningful while the node is active. */
  datatype Node = Node(initial: bool, selector: bool, active: bool,
                       enterTime: real, duration: real, edges: seq<Edge>)

  /** Node::exit_time */
  function ExitTime(n: Node): real
  {
    n.enterTime + n.duration
  }

  /** Node::enter: the node becomes active at `t`. */
  function Entered(n: Node, t: real): (m: Node)
  {
    n.(active := true, enterTime := t)
  }

  /** Node::exit: the node becomes inactive. */
  function Exited(n: Node): (m: Node)
  {
    n.(active := false)
  }

  /** The parts of a node that entering and exiting do not touch. */
  predicate SameShape(a: Node, b: Node)
  {
    a.initial == b.initial && a.selector == b.selector && a.duration == b.duration && a.edges == b.edges
  }

  /** rand() / (double)RAND_MAX */
  function Normal(draw: nat): real
  {
    draw as real / RAND_MAX as real
  }

  /** The heads of a list of edges. */
  function Heads(edges: seq<Edge>): set<NodeId>
  {
    set e | e in edges :: e.head
  }

  /** Every edge of the list leads to a node of `keys`. */
  ghost predicate LeadInto(edges: seq<Edge>, keys: set<NodeId>)
  {
    forall e :: e in edges ==> e.head in keys
  }

  // ---------------------------------------------------------------------
  // The slot table
  // ---------------------------------------------------------------------

  type Slots = seq<Option<NodeId>>

  /** The slot `i` steps after `start`, wrapping round the table. */
  function Cyclic(start: nat, i: nat): (k: nat)
    requires start < MAX_ACTIVE_NODES && i < MAX_ACTIVE_NODES
    ensures k < MAX_ACTIVE_NODES && k % MAX_ACTIVE_NODES == (start + i) % MAX_ACTIVE_NODES
  {
    if start + i < MAX_ACTIVE_NODES then start + i else start + i - MAX_ACTIVE_NODES
  }

  /** One more probing step moves to the next slot, wrapping round. */
  lemma CyclicNext(start: nat, i: nat)
    requires start < MAX_ACTIVE_NODES && i + 1 < MAX_ACTIVE_NODES
    ensures Cyclic(start, i + 1) == (Cyclic(start, i) + 1) % MAX_ACTIVE_NODES
  {
  }

  /** The first empty slot met when probing from `start + i` onwards, without wrapping past `start`. */
  function FirstEmptyFrom(s: Slots, start: nat, i: nat): (k: Option<nat>)
    requires |s| == MAX_ACTIVE_NODES && start < MAX_ACTIVE_NODES && i <= MAX_ACTIVE_NODES
    ensures k.Some? ==> k.value < MAX_ACTIVE_NODES
    decreases MAX_ACTIVE_NODES - i
  {
    if i == MAX_ACTIVE_NODES then None
    else if s[Cyclic(start, i)].None? then Some(Cyclic(start, i))
    else FirstEmptyFrom(s, start, i + 1)
  }

  /** The slot enter_node fills when it starts probing at `start`. */
  function FreeSlot(s: Slots, start: nat): Option<nat>
    requires |s| == MAX_ACTIVE_NODES && start < MAX_ACTIVE_NODES
  {
    FirstEmptyFrom(s, start, 0)
  }

  /**
   * Probing finds a slot exactly when some slot is empty, and the slot it
   * finds is the first empty one in cyclic order from the start.
   */
  lemma {:induction false} FirstEmptyFromIsFirst(s: Slots, start: nat, i: nat)
    requires |s| == MAX_ACTIVE_NODES && start < MAX_ACTIVE_NODES && i <= MAX_ACTIVE_NODES
    ensures var k := FirstEmptyFrom(s, start, i);
      && (k.None? <==> forall d :: i <= d < MAX_ACTIVE_NODES ==> s[Cyclic(start, d)].Some?)
      && (k.Some? ==> exists d :: i <= d < MAX_ACTIVE_NODES && k.value == Cyclic(start, d)
                         && s[k.value].None? && forall e :: i <= e < d ==> s[Cyclic(start, e)].Some?)
    decreases MAX_ACTIVE_NODES - i
  {
    if i < MAX_ACTIVE_NODES && s[Cyclic(start, i)].Some? {
      FirstEmptyFromIsFirst(s, start, i + 1);
      var k := FirstEmptyFrom(s, start, i);
      if k.Some? {
        var d :| i + 1 <= d < MAX_ACTIVE_NODES && k.value == Cyclic(start, d)
                 && s[k.value].None? && forall e :: i + 1 <= e < d ==> s[Cyclic(start, e)].Some?;
        assert forall e :: i <= e < d ==> s[Cyclic(start, e)].Some?;
      }
    }
  }

  /** Probing visits every slot: MAX_ACTIVE_NODES steps from any start cover the table. */
  lemma CyclicCovers(start: nat, k: nat)
    requires start < MAX_ACTIVE_NODES && k < MAX_ACTIVE_NODES
    ensures exists d :: 0 <= d < MAX_ACTIVE_NODES && Cyclic(start, d) == k
  {
    var d := if k >= start then k - start else k + MAX_ACTIVE_NODES - start;
    assert Cyclic(start, d) == k;
  }

  /** enter_node returns false only when every slot is occupied. */
  lemma FreeSlotExists(s: Slots, start: nat)
    requires |s| == MAX_ACTIVE_NODES && start < MAX_ACTIVE_NODES
    ensures FreeSlot(s, start).None? <==> forall k :: 0 <= k < MAX_ACTIVE_NODES ==> s[k].Some?
    ensures FreeSlot(s, start).Some? ==> s[FreeSlot(s, start).value].None?
  {
    FirstEmptyFromIsFirst(s, start, 0);
    if FreeSlot(s, start).None? {
      forall k | 0 <= k < MAX_ACTIVE_NODES ensures s[k].Some? {
        CyclicCovers(start, k);
      }
    }
  }

  // ---------------------------------------------------------------------
  // The earliest active node
  // ---------------------------------------------------------------------

  /** Every occupied slot names a known node. */
  predicate SlotsKnown(s: Slots, keys: set<NodeId>)
  {
    forall i :: 0 <= i < |s| && s[i].Some? ==> s[i].value in keys
  }

  /**
   * The scan of earliest_node over the slots: a later slot replaces the
   * current choice only when it exits strictly earlier.
   */
  function EarliestIn(s: Slots, g: map<NodeId, Node>): (r: Option<NodeId>)
    requires SlotsKnown(s, g.Keys)
    ensures r.Some? ==> r.value in g
    decreases |s|
  {
    if s == [] then None
    else
      var e := EarliestIn(s[..|s| - 1], g);
      var last := s[|s| - 1];
      if last.Some? && (e.None? || ExitTime(g[last.value]) < ExitTime(g[e.value])) then last else e
  }

  /** Slot k holds a node that exits no later than any other active node, and strictly before those in earlier slots. */
  ghost predicate FirstMinimal(s: Slots, g: map<NodeId, Node>, k: nat)
    requires SlotsKnown(s, g.Keys)
  {
    && k < |s| && s[k].Some?
    && (forall i :: 0 <= i < |s| && s[i].Some? ==> ExitTime(g[s[k].value]) <= ExitTime(g[s[i].value]))
    && (forall i :: 0 <= i < k && s[i].Some? ==> ExitTime(g[s[k].value]) < ExitTime(g[s[i].value]))
  }

  /**
   * earliest_node is null exactly when every slot is empty; otherwise it is
   * the node of the first slot whose exit time is minimal.
   */
  lemma {:induction false} EarliestIsFirstMinimal(s: Slots, g: map<NodeId, Node>)
    requires SlotsKnown(s, g.Keys)
    ensures EarliestIn(s, g).None? <==> forall i :: 0 <= i < |s| ==> s[i].None?
    ensures EarliestIn(s, g).Some? ==> exists k: nat :: FirstMinimal(s, g, k) && s[k] == EarliestIn(s, g)
    decreases |s|
  {
    if s != [] {
      var init := s[..|s| - 1];
      assert SlotsKnown(init, g.Keys);
      EarliestIsFirstMinimal(init, g);
      assert forall i :: 0 <= i < |init| ==> init[i] == s[i];
      var r := EarliestIn(s, g);
      if r.Some? {
        if r == s[|s| - 1] && (EarliestIn(init, g).None? || ExitTime(g[r.value]) < ExitTime(g[EarliestIn(init, g).value])) {
          assert FirstMinimal(s, g, |s| - 1);
        } else {
          var k: nat :| FirstMinimal(init, g, k) && init[k] == EarliestIn(init, g);
          assert FirstMinimal(s, g, k);
        }
      }
    }
  }

  ghost predicate AllEmpty(s: Slots)
  {
    forall k :: 0 <= k < |s| ==> s[k].None?
  }

  /** Every active node in the table exits at `t` or later. */
  ghost predicate ExitNoEarlier(s: Slots, g: map<NodeId, Node>, t: real)
    requires SlotsKnown(s, g.Keys)
  {
    forall k :: 0 <= k < |s| && s[k].Some? ==> t <= ExitTime(g[s[k].value])
  }

  // ---------------------------------------------------------------------
  // Removing edges
  // ---------------------------------------------------------------------

  /** Node::remove_edges_to: the edges whose head is not `id`, in order. */
  function RemoveEdgesTo(edges: seq<Edge>, id: NodeId): (r: seq<Edge>)
  {
    if edges == [] then []
    else if edges[0].head == id then RemoveEdgesTo(edges[1..], id)
    else [edges[0]] + RemoveEdgesTo(edges[1..], id)
  }

  /** No edge to `id` is left, and every other edge is kept. */
  lemma {:induction false} RemoveEdgesToKeepsOthers(edges: seq<Edge>, id: NodeId)
    ensures forall e :: e in RemoveEdgesTo(edges, id) <==> e in edges && e.head != id
  {
    if edges != [] {
      RemoveEdgesToKeepsOthers(edges[1..], id);
      assert forall e :: e in edges <==> e == edges[0] || e in edges[1..];
    }
  }

  /**
   * The node records after remove_edges_to(id) has been applied to each
   * node of `ns`; every other record is unchanged.
   */
  function Pruned(g: map<NodeId, Node>, ns: seq<NodeId>, id: NodeId): (r: map<NodeId, Node>)
  {
    map x | x in g :: if x in ns then g[x].(edges := RemoveEdgesTo(g[x].edges, id)) else g[x]
  }

  /** Pruning one more node updates that node's record only. */
  lemma PrunedStep(g: map<NodeId, Node>, ns: seq<NodeId>, n: NodeId, id: NodeId)
    requires n in g && n !in ns
    ensures var p := Pruned(g, ns, id);
      Pruned(g, ns + [n], id) == p[n := p[n].(edges := RemoveEdgesTo(p[n].edges, id))]
  {
    var p := Pruned(g, ns, id);
    assert forall x :: x in ns + [n] <==> x in ns || x == n;
    assert Pruned(g, ns + [n], id).Keys == p[n := p[n]].Keys;
  }

  /** Removing edges keeps every record's edges leading to known nodes. */
  lemma PrunedKeepsEdgesKnown(g: map<NodeId, Node>, ns: seq<NodeId>, id: NodeId)
    requires EdgesKnown(g)
    ensures Pruned(g, ns, id).Keys == g.Keys && EdgesKnown(Pruned(g, ns, id))
    ensures forall x :: x in g && x in ns ==> forall e :: e in Pruned(g, ns, id)[x].edges <==> e in g[x].edges && e.head != id
  {
    var p := Pruned(g, ns, id);
    forall x | x in g && x in ns
      ensures forall e :: e in p[x].edges <==> e in g[x].edges && e.head != id
    {
      RemoveEdgesToKeepsOthers(g[x].edges, id);
    }
    forall x | x in p ensures LeadInto(p[x].edges, p.Keys) {
      assert LeadInto(g[x].edges, g.Keys);
    }
  }

  /** Dropping one element keeps the others distinct and in order. */
  lemma WithoutKeeps(s: seq<NodeId>, k: nat)
    requires k < |s| && Distinct(s)
    ensures Distinct(Without(s, k)) && |Without(s, k)| == |s| - 1
    ensures forall i :: 0 <= i < |Without(s, k)| ==> Without(s, k)[i] == s[if i < k then i else i + 1]
  {
  }

  lemma TakeOneMore(s: seq<NodeId>, i: nat)
    requires i < |s|
    ensures s[..i + 1] == s[..i] + [s[i]]
  {
  }

  /** The list without the element at index k. */
  function Without(s: seq<NodeId>, k: nat): (r: seq<NodeId>)
    requires k < |s|
  {
    s[..k] + s[k + 1..]
  }

  // ---------------------------------------------------------------------
  // Entering and exiting, on a snapshot of the running state
  // ---------------------------------------------------------------------

  /** What entering and exiting nodes change: the slots, the node records and the random stream. */
  datatype Snapshot = Snapshot(slots: Slots, graph: map<NodeId, Node>, drawn: nat)

  /** Every edge of a known node leads to a known node. */
  ghost predicate EdgesKnown(g: map<NodeId, Node>)
  {
    WiringClosed(Wiring(g))
  }

  /** The edges of every node: the part of the records that running never changes. */
  function Wiring(g: map<NodeId, Node>): (w: map<NodeId, seq<Edge>>)
    ensures w.Keys == g.Keys
  {
    map x | x in g :: g[x].edges
  }

  ghost predicate WiringClosed(w: map<NodeId, seq<Edge>>)
  {
    forall x :: x in w ==> LeadInto(w[x], w.Keys)
  }

  /** Replacing a record by one with the same edges keeps the wiring. */
  lemma SameWiring(g: map<NodeId, Node>, x: NodeId, node: Node)
    requires x in g && node.edges == g[x].edges
    ensures Wiring(g[x := node]) == Wiring(g)
  {
  }

  ghost predicate Consistent(st: Snapshot)
  {
    |st.slots| == MAX_ACTIVE_NODES && SlotsKnown(st.slots, st.graph.Keys) && EdgesKnown(st.graph)
  }

  /** The slot enter_node probes first: rand() modulo the table size. */
  function StartSlot(st: Snapshot, rand: nat -> nat): (k: nat)
    ensures k < MAX_ACTIVE_NODES
  {
    rand(st.drawn) % MAX_ACTIVE_NODES
  }

  /** Whether enter_node finds a slot. */
  function Fits(st: Snapshot, rand: nat -> nat): bool
    requires |st.slots| == MAX_ACTIVE_NODES
  {
    FreeSlot(st.slots, StartSlot(st, rand)).Some?
  }

  /** enter_node(id) at time t. */
  function Enter(st: Snapshot, id: NodeId, rand: nat -> nat, t: real): (r: Snapshot)
    requires |st.slots| == MAX_ACTIVE_NODES && id in st.graph
    ensures |r.slots| == MAX_ACTIVE_NODES && r.graph.Keys == st.graph.Keys && r.drawn == st.drawn + 1
  {
    var k := FreeSlot(st.slots, StartSlot(st, rand));
    if k.None? then st.(drawn := st.drawn + 1)
    else Snapshot(st.slots[k.value := Some(id)], st.graph[id := Entered(st.graph[id], t)], st.drawn + 1)
  }

  /** Slot k was empty in s and holds `id` in r; every other slot is unchanged. */
  ghost predicate FilledSlot(s: Slots, r: Slots, k: nat, id: NodeId)
  {
    k < |s| && s[k].None? && r == s[k := Some(id)]
  }

  /**
   * Entering fills one empty slot with the node and makes it active at t,
   * when a slot is free, and changes nothing else; no slot already
   * occupied is touched.
   */
  lemma EnterFillsOneFreeSlot(st: Snapshot, id: NodeId, rand: nat -> nat, t: real)
    requires Consistent(st) && id in st.graph
    ensures Consistent(Enter(st, id, rand, t))
    ensures Fits(st, rand) <==> exists k :: 0 <= k < MAX_ACTIVE_NODES && st.slots[k].None?
    ensures Fits(st, rand) ==> Enter(st, id, rand, t).graph == st.graph[id := Entered(st.graph[id], t)]
    ensures Fits(st, rand) ==> exists k: nat :: FilledSlot(st.slots, Enter(st, id, rand, t).slots, k, id)
    ensures !Fits(st, rand) ==> Enter(st, id, rand, t).graph == st.graph && Enter(st, id, rand, t).slots == st.slots
  {
    FreeSlotExists(st.slots, StartSlot(st, rand));
    var r := Enter(st, id, rand, t);
    if Fits(st, rand) {
      assert FilledSlot(st.slots, r.slots, FreeSlot(st.slots, StartSlot(st, rand)).value, id);
      SameWiring(st.graph, id, Entered(st.graph[id], t));
    }
  }

  /** The slots with every occurrence of `id` emptied. */
  function Vacate(s: Slots, id: NodeId): (r: Slots)
    ensures |r| == |s|
  {
    seq(|s|, i requires 0 <= i < |s| => if s[i] == Some(id) then None else s[i])
  }

  /** The sum of the probabilities of a list of edges. */
  function Total(edges: seq<Edge>): real
  {
    if edges == [] then 0.0 else Total(edges[..|edges| - 1]) + edges[|edges| - 1].probability
  }

  /**
   * Edge j of a selector is taken by the draw u when its head is inactive
   * and u falls strictly inside the edge's share of [0, 1]: above the sum
   * of the probabilities before it and below that sum plus its own.
   */
  ghost predicate Hit(edges: seq<Edge>, g: map<NodeId, Node>, u: real, j: nat)
    requires j < |edges| && edges[j].head in g
  {
    !g[edges[j].head].active && Total(edges[..j]) < u < Total(edges[..j + 1])
  }

  /** Edge j is hit and no edge from i up to it is. */
  ghost predicate FirstHit(edges: seq<Edge>, g: map<NodeId, Node>, u: real, i: nat, j: nat)
    requires LeadInto(edges, g.Keys)
  {
    i <= j < |edges| && Hit(edges, g, u, j) && forall l :: i <= l < j ==> !Hit(edges, g, u, l)
  }

  /** The scan of a selector's edges from edge i, with rangeMin the sum of the probabilities before it. */
  function Chosen(edges: seq<Edge>, g: map<NodeId, Node>, u: real, i: nat, rangeMin: real): (r: Option<NodeId>)
    requires LeadInto(edges, g.Keys)
    ensures r.Some? ==> r.value in g
    decreases |edges| - i
  {
    if i >= |edges| then None
    else if !g[edges[i].head].active && u > rangeMin && u < rangeMin + edges[i].probability then Some(edges[i].head)
    else Chosen(edges, g, u, i + 1, rangeMin + edges[i].probability)
  }

  lemma TotalStep(edges: seq<Edge>, j: nat)
    requires j < |edges|
    ensures Total(edges[..j + 1]) == Total(edges[..j]) + edges[j].probability
  {
    assert edges[..j + 1][..j] == edges[..j];
  }

  /**
   * A selector takes the first edge the draw hits, and takes none exactly
   * when the draw hits no edge.
   */
  lemma {:induction false} ChosenIsFirstHit(edges: seq<Edge>, g: map<NodeId, Node>, u: real, i: nat, rangeMin: real)
    requires LeadInto(edges, g.Keys) && i <= |edges| && rangeMin == Total(edges[..i])
    ensures Chosen(edges, g, u, i, rangeMin).None? <==> forall j :: i <= j < |edges| ==> !Hit(edges, g, u, j)
    ensures Chosen(edges, g, u, i, rangeMin).Some? ==>
      exists j: nat :: FirstHit(edges, g, u, i, j) && Chosen(edges, g, u, i, rangeMin) == Some(edges[j].head)
    decreases |edges| - i
  {
    if i < |edges| {
      TotalStep(edges, i);
      if !g[edges[i].head].active && u > rangeMin && u < rangeMin + edges[i].probability {
        assert FirstHit(edges, g, u, i, i);
      } else {
        assert !Hit(edges, g, u, i);
        ChosenIsFirstHit(edges, g, u, i + 1, rangeMin + edges[i].probability);
        if Chosen(edges, g, u, i, rangeMin).Some? {
          var j: nat :| FirstHit(edges, g, u, i + 1, j) && Chosen(edges, g, u, i, rangeMin) == Some(edges[j].head);
          assert FirstHit(edges, g, u, i, j);
        }
      }
    }
  }

  /** The edges of a non-selector from edge i: one draw per edge, entering an inactive head when the draw is at most the edge's probability. */
  function Follow(st: Snapshot, edges: seq<Edge>, i: nat, rand: nat -> nat, t: real): (r: Snapshot)
    requires |st.slots| == MAX_ACTIVE_NODES && LeadInto(edges, st.graph.Keys)
    ensures |r.slots| == MAX_ACTIVE_NODES && r.graph.Keys == st.graph.Keys
    decreases |edges| - i
  {
    if i >= |edges| then st
    else Follow(FollowOne(st, edges[i], rand, t), edges, i + 1, rand, t)
  }

  /** One edge of a non-selector: a draw, then the head is entered if the draw is at most the probability and the head is inactive. */
  function FollowOne(st: Snapshot, e: Edge, rand: nat -> nat, t: real): (r: Snapshot)
    requires |st.slots| == MAX_ACTIVE_NODES && e.head in st.graph
    ensures |r.slots| == MAX_ACTIVE_NODES && r.graph.Keys == st.graph.Keys
  {
    var next := st.(drawn := st.drawn + 1);
    if Normal(rand(st.drawn)) <= e.probability && !next.graph[e.head].active then Enter(next, e.head, rand, t) else next
  }

  /** One edge of a non-selector, by case: the draw enters an inactive head when it is at most the probability. */
  lemma FollowOneCases(st: Snapshot, e: Edge, rand: nat -> nat, t: real)
    requires |st.slots| == MAX_ACTIVE_NODES && e.head in st.graph
    ensures Normal(rand(st.drawn)) <= e.probability && !st.graph[e.head].active ==>
      FollowOne(st, e, rand, t) == Enter(st.(drawn := st.drawn + 1), e.head, rand, t)
    ensures !(Normal(rand(st.drawn)) <= e.probability && !st.graph[e.head].active) ==>
      FollowOne(st, e, rand, t) == st.(drawn := st.drawn + 1)
  {
  }

  /** exit_node(id) at time t. */
  function Exit(st: Snapshot, id: NodeId, rand: nat -> nat, t: real): (r: Snapshot)
    requires Consistent(st) && id in st.graph
    ensures |r.slots| == MAX_ACTIVE_NODES && r.graph.Keys == st.graph.Keys
  {
    var v := Vacated(st, id);
    var edges := v.graph[id].edges;
    assert LeadInto(edges, v.graph.Keys);
    if v.graph[id].selector then Select(v.(drawn := st.drawn + 1), edges, Normal(rand(st.drawn)), rand, t)
    else Follow(v, edges, 0, rand, t)
  }

  /** exit_node by case: a selector draws once and selects, any other node follows its edges. */
  lemma ExitCases(st: Snapshot, id: NodeId, rand: nat -> nat, t: real)
    requires Consistent(st) && id in st.graph
    ensures LeadInto(st.graph[id].edges, Vacated(st, id).graph.Keys)
    ensures st.graph[id].selector ==>
      Exit(st, id, rand, t) == Select(Vacated(st, id).(drawn := st.drawn + 1), st.graph[id].edges, Normal(rand(st.drawn)), rand, t)
    ensures !st.graph[id].selector ==> Exit(st, id, rand, t) == Follow(Vacated(st, id), st.graph[id].edges, 0, rand, t)
  {
    assert Wiring(st.graph)[id] == st.graph[id].edges;
  }

  /** The selector branch of exit_node after the draw u: enter the chosen successor, if any. */
  function Select(st: Snapshot, edges: seq<Edge>, u: real, rand: nat -> nat, t: real): (r: Snapshot)
    requires |st.slots| == MAX_ACTIVE_NODES && LeadInto(edges, st.graph.Keys)
    ensures |r.slots| == MAX_ACTIVE_NODES && r.graph.Keys == st.graph.Keys
  {
    match Chosen(edges, st.graph, u, 0, 0.0)
    case None => st
    case Some(h) => Enter(st, h, rand, t)
  }

  /** Replacing one record by one with the same edges keeps the snapshot consistent. */
  lemma RecordUpdateConsistent(st: Snapshot, x: NodeId, node: Node)
    requires Consistent(st) && x in st.graph && node.edges == st.graph[x].edges
    ensures Consistent(st.(graph := st.graph[x := node]))
  {
    SameWiring(st.graph, x, node);
  }

  /**
   * From a to b, nodes have only been entered at time t: the only records
   * that changed belong to inactive nodes of `heads`, now entered, and the
   * only slots that changed were empty and now hold a node of `heads`.
   */
  ghost predicate Grows(a: Snapshot, b: Snapshot, heads: set<NodeId>, t: real)
  {
    && |a.slots| == |b.slots| && a.graph.Keys == b.graph.Keys
    && (forall x :: x in a.graph && b.graph[x] != a.graph[x] ==>
          x in heads && !a.graph[x].active && b.graph[x] == Entered(a.graph[x], t))
    && (forall k :: 0 <= k < |a.slots| && b.slots[k] != a.slots[k] ==>
          a.slots[k].None? && b.slots[k].Some? && b.slots[k].value in heads)
  }

  lemma GrowsTransitive(a: Snapshot, b: Snapshot, c: Snapshot, heads: set<NodeId>, t: real)
    requires Grows(a, b, heads, t) && Grows(b, c, heads, t)
    ensures Grows(a, c, heads, t)
  {
    forall x | x in a.graph && c.graph[x] != a.graph[x]
      ensures x in heads && !a.graph[x].active && c.graph[x] == Entered(a.graph[x], t)
    {
      if b.graph[x] != a.graph[x] {
        assert b.graph[x].active;
      }
    }
  }

  lemma GrowsWider(a: Snapshot, b: Snapshot, heads: set<NodeId>, wider: set<NodeId>, t: real)
    requires Grows(a, b, heads, t) && heads <= wider
    ensures Grows(a, b, wider, t)
  {
  }

  /** Entering an inactive node only enters it. */
  lemma EnterGrows(st: Snapshot, id: NodeId, rand: nat -> nat, t: real)
    requires Consistent(st) && id in st.graph && !st.graph[id].active
    ensures Consistent(Enter(st, id, rand, t)) && Grows(st, Enter(st, id, rand, t), {id}, t)
  {
    EnterFillsOneFreeSlot(st, id, rand, t);
  }

  /** Following a non-selector's edges only enters heads of those edges. */
  lemma {:induction false} FollowGrows(st: Snapshot, edges: seq<Edge>, i: nat, rand: nat -> nat, t: real)
    requires Consistent(st) && LeadInto(edges, st.graph.Keys)
    ensures Consistent(Follow(st, edges, i, rand, t)) && Grows(st, Follow(st, edges, i, rand, t), Heads(edges), t)
    decreases |edges| - i
  {
    if i < |edges| {
      var next := st.(drawn := st.drawn + 1);
      var head := edges[i].head;
      var one := FollowOne(st, edges[i], rand, t);
      assert Grows(st, next, Heads(edges), t);
      if Normal(rand(st.drawn)) <= edges[i].probability && !next.graph[head].active {
        EnterGrows(next, head, rand, t);
        assert one == Enter(next, head, rand, t);
        GrowsWider(next, one, {head}, Heads(edges), t);
        GrowsTransitive(st, next, one, Heads(edges), t);
      } else {
        assert one == next;
      }
      FollowGrows(one, edges, i + 1, rand, t);
      GrowsTransitive(st, one, Follow(one, edges, i + 1, rand, t), Heads(edges), t);
    }
  }

  /** The state right after exit_node has exited the node and emptied its slots. */
  function Vacated(st: Snapshot, id: NodeId): (r: Snapshot)
    requires id in st.graph
  {
    Snapshot(Vacate(st.slots, id), st.graph[id := Exited(st.graph[id])], st.drawn)
  }

  lemma VacatedConsistent(st: Snapshot, id: NodeId)
    requires Consistent(st) && id in st.graph
    ensures Consistent(Vacated(st, id))
    ensures forall k :: 0 <= k < |st.slots| ==> Vacated(st, id).slots[k] != Some(id)
  {
    RecordUpdateConsistent(st, id, Exited(st.graph[id]));
  }

  /**
   * exit_node leaves the node inactive and out of every slot, and then only
   * enters successors of the node, each inactive before and entered at the
   * current time, into slots that were free. A node that is not its own
   * successor ends inactive and out of the table.
   */
  lemma ExitEntersOnlySuccessors(st: Snapshot, id: NodeId, rand: nat -> nat, t: real)
    requires Consistent(st) && id in st.graph
    ensures Consistent(Exit(st, id, rand, t))
    ensures Grows(Vacated(st, id), Exit(st, id, rand, t), Heads(st.graph[id].edges), t)
    ensures id !in Heads(st.graph[id].edges) ==> !Exit(st, id, rand, t).graph[id].active
    ensures id !in Heads(st.graph[id].edges) ==> forall k :: 0 <= k < MAX_ACTIVE_NODES ==> Exit(st, id, rand, t).slots[k] != Some(id)
  {
    var v := Vacated(st, id);
    VacatedConsistent(st, id);
    ExitCases(st, id, rand, t);
    var edges := st.graph[id].edges;
    if st.graph[id].selector {
      var next := v.(drawn := st.drawn + 1);
      SelectGrows(next, edges, Normal(rand(st.drawn)), rand, t);
      assert Grows(v, next, {}, t);
      GrowsWider(v, next, {}, Heads(edges), t);
      GrowsTransitive(v, next, Exit(st, id, rand, t), Heads(edges), t);
    } else {
      FollowGrows(v, edges, 0, rand, t);
    }
  }

  /** The selector branch only enters the chosen head, which is a head of one of the edges. */
  lemma SelectGrows(st: Snapshot, edges: seq<Edge>, u: real, rand: nat -> nat, t: real)
    requires Consistent(st) && LeadInto(edges, st.graph.Keys)
    ensures Consistent(Select(st, edges, u, rand, t)) && Grows(st, Select(st, edges, u, rand, t), Heads(edges), t)
  {
    var c := Chosen(edges, st.graph, u, 0, 0.0);
    if c.Some? {
      assert edges[..0] == [];
      ChosenIsFirstHit(edges, st.graph, u, 0, 0.0);
      var j: nat :| FirstHit(edges, st.graph, u, 0, j) && c == Some(edges[j].head);
      assert edges[j] in edges;
      EnterGrows(st, c.value, rand, t);
      GrowsWider(st, Select(st, edges, u, rand, t), {c.value}, Heads(edges), t);
    }
  }

  /** A selector enters at most one successor: at most one slot differs from the vacated table. */
  lemma SelectorEntersAtMostOne(st: Snapshot, id: NodeId, rand: nat -> nat, t: real)
    requires Consistent(st) && id in st.graph && st.graph[id].selector
    ensures forall k, l :: 0 <= k < l < MAX_ACTIVE_NODES && Exit(st, id, rand, t).slots[k] != Vacate(st.slots, id)[k] ==>
      Exit(st, id, rand, t).slots[l] == Vacate(st.slots, id)[l]
  {
    var v := Vacated(st, id);
    VacatedConsistent(st, id);
    ExitCases(st, id, rand, t);
    var next := v.(drawn := st.drawn + 1);
    var r := Exit(st, id, rand, t);
    assert next.slots == Vacate(st.slots, id);
    var c := Chosen(st.graph[id].edges, next.graph, Normal(rand(st.drawn)), 0, 0.0);
    if c.Some? {
      assert r == Enter(next, c.value, rand, t);
      EnterFillsOneFreeSlot(next, c.value, rand, t);
      if Fits(next, rand) {
        var k0: nat :| FilledSlot(next.slots, r.slots, k0, c.value);
        forall k, l | 0 <= k < l < MAX_ACTIVE_NODES && r.slots[k] != next.slots[k]
          ensures r.slots[l] == next.slots[l]
        {
          assert k == k0;
        }
      }
    } else {
      assert r == next;
    }
  }

  /**
   * The first part of run at time zero, from node i of `ns`: each node is
   * exited if active and entered if initial; the flag says whether some
   * node was entered.
   */
  function Start(st: Snapshot, ns: seq<NodeId>, i: nat, rand: nat -> nat, t: real): (r: (Snapshot, bool))
    requires |st.slots| == MAX_ACTIVE_NODES && forall j :: 0 <= j < |ns| ==> ns[j] in st.graph
    ensures |r.0.slots| == MAX_ACTIVE_NODES && r.0.graph.Keys == st.graph.Keys
    decreases |ns| - i
  {
    if i >= |ns| then (st, false)
    else
      var one := StartOne(st, ns[i], rand, t);
      var rest := Start(one.0, ns, i + 1, rand, t);
      (rest.0, one.1 || rest.1)
  }

  /** The first part of run from node i: node i, then the rest. */
  lemma StartStep(st: Snapshot, ns: seq<NodeId>, i: nat, rand: nat -> nat, t: real)
    requires |st.slots| == MAX_ACTIVE_NODES && (forall j :: 0 <= j < |ns| ==> ns[j] in st.graph) && i < |ns|
    ensures Start(st, ns, i, rand, t).0 == Start(StartOne(st, ns[i], rand, t).0, ns, i + 1, rand, t).0
    ensures Start(st, ns, i, rand, t).1 == (StartOne(st, ns[i], rand, t).1 || Start(StartOne(st, ns[i], rand, t).0, ns, i + 1, rand, t).1)
  {
  }

  /** One node at time zero: exited if active, then entered if initial; the flag says whether it was entered. */
  function StartOne(st: Snapshot, n: NodeId, rand: nat -> nat, t: real): (r: (Snapshot, bool))
    requires |st.slots| == MAX_ACTIVE_NODES && n in st.graph
    ensures |r.0.slots| == MAX_ACTIVE_NODES && r.0.graph.Keys == st.graph.Keys
  {
    var exited := if st.graph[n].active then st.(graph := st.graph[n := Exited(st.graph[n])]) else st;
    if exited.graph[n].initial then (Enter(exited, n, rand, t), Fits(exited, rand)) else (exited, false)
  }

  /**
   * At time zero no occupied slot is emptied (nodes are exited without
   * leaving their slots), and when some node was entered some slot is
   * occupied.
   */
  lemma {:induction false} StartKeepsSlots(st: Snapshot, ns: seq<NodeId>, i: nat, rand: nat -> nat, t: real)
    requires Consistent(st) && forall j :: 0 <= j < |ns| ==> ns[j] in st.graph
    ensures Consistent(Start(st, ns, i, rand, t).0)
    ensures forall k :: 0 <= k < MAX_ACTIVE_NODES && st.slots[k].Some? ==> Start(st, ns, i, rand, t).0.slots[k].Some?
    ensures Start(st, ns, i, rand, t).1 ==> exists k :: 0 <= k < MAX_ACTIVE_NODES && Start(st, ns, i, rand, t).0.slots[k].Some?
    decreases |ns| - i
  {
    if i < |ns| {
      var n := ns[i];
      var exited := if st.graph[n].active then st.(graph := st.graph[n := Exited(st.graph[n])]) else st;
      if st.graph[n].active {
        RecordUpdateConsistent(st, n, Exited(st.graph[n]));
      }
      var entered := if exited.graph[n].initial then Enter(exited, n, rand, t) else exited;
      if exited.graph[n].initial {
        EnterFillsOneFreeSlot(exited, n, rand, t);
        EnterKeepsSlots(exited, n, rand, t);
      }
      var one := StartOne(st, n, rand, t);
      assert one == (entered, exited.graph[n].initial && Fits(exited, rand));
      var rest := Start(entered, ns, i + 1, rand, t);
      assert Start(st, ns, i, rand, t) == (rest.0, one.1 || rest.1);
      StartKeepsSlots(entered, ns, i + 1, rand, t);
      if one.1 {
        var k: nat :| FilledSlot(exited.slots, entered.slots, k, n);
        assert rest.0.slots[k].Some?;
      }
    }
  }

  /** Entering never empties an occupied slot. */
  lemma EnterKeepsSlots(st: Snapshot, id: NodeId, rand: nat -> nat, t: real)
    requires |st.slots| == MAX_ACTIVE_NODES && id in st.graph
    ensures forall k :: 0 <= k < MAX_ACTIVE_NODES && st.slots[k].Some? ==> Enter(st, id, rand, t).slots[k].Some?
  {
  }

  /**
   * At time zero a distinct list of nodes is restarted: afterwards the only
   * active nodes of the list are initial ones, and no record outside the
   * list changes.
   */
  lemma {:induction false} StartEntersInitial(st: Snapshot, ns: seq<NodeId>, i: nat, rand: nat -> nat, t: real)
    requires |st.slots| == MAX_ACTIVE_NODES && Distinct(ns) && i <= |ns| && forall j :: 0 <= j < |ns| ==> ns[j] in st.graph
    ensures forall j :: i <= j < |ns| && Start(st, ns, i, rand, t).0.graph[ns[j]].active ==> Start(st, ns, i, rand, t).0.graph[ns[j]].initial
    ensures forall x :: x in st.graph && x !in ns[i..] ==> Start(st, ns, i, rand, t).0.graph[x] == st.graph[x]
    decreases |ns| - i
  {
    if i < |ns| {
      var n := ns[i];
      var exited := if st.graph[n].active then st.(graph := st.graph[n := Exited(st.graph[n])]) else st;
      var entered := if exited.graph[n].initial then Enter(exited, n, rand, t) else exited;
      assert forall x :: x in st.graph && x != n ==> entered.graph[x] == st.graph[x];
      assert entered.graph[n].active ==> entered.graph[n].initial;
      StartEntersInitial(entered, ns, i + 1, rand, t);
      assert forall j :: i + 1 <= j < |ns| ==> ns[j] != n;
      assert forall x :: x in ns[i..] <==> x == n || x in ns[i + 1..];
    }
  }

  // ---------------------------------------------------------------------
  // Running
  // ---------------------------------------------------------------------

  /** What run changes: the running snapshot, the machine's time and whether it has finished. */
  datatype RunState = RunState(st: Snapshot, time: real, finished: bool)

  /**
   * One pass of the loop of run: the earliest active node is exited at its
   * exit time when that lies before `cycleEnd`, and the loop goes on;
   * otherwise the loop stops, with the machine finished when no node is
   * active and at `cycleEnd` when every active node exits at or after it.
   */
  function StepOf(r: RunState, cycleEnd: real, rand: nat -> nat): (next: (RunState, bool))
    requires Consistent(r.st)
    ensures Consistent(next.0.st) && next.0.st.graph.Keys == r.st.graph.Keys
  {
    match EarliestIn(r.st.slots, r.st.graph)
    case None => (r.(finished := true), false)
    case Some(id) =>
      var t := ExitTime(r.st.graph[id]);
      if t < cycleEnd then
        ExitEntersOnlySuccessors(r.st, id, rand, t);
        (RunState(Exit(r.st, id, rand, t), t, r.finished), true)
      else (r.(time := cycleEnd), false)
  }

  /**
   * A pass of the loop goes on exactly when some node is active and the
   * first slot of minimal exit time exits before `cycleEnd`; that node is
   * then exited at its exit time, which becomes the machine's time. The
   * machine is finished after the pass exactly when it was or no node was
   * active, and a pass that stops without finishing leaves the nodes alone
   * and moves the time to `cycleEnd`, at or before every exit.
   */
  lemma StepOfCases(r: RunState, cycleEnd: real, rand: nat -> nat)
    requires Consistent(r.st)
    ensures StepOf(r, cycleEnd, rand).0.finished <==> r.finished || AllEmpty(r.st.slots)
    ensures StepOf(r, cycleEnd, rand).1 <==> !AllEmpty(r.st.slots) && exists k: nat :: FirstMinimal(r.st.slots, r.st.graph, k) && ExitTime(r.st.graph[r.st.slots[k].value]) < cycleEnd
    ensures StepOf(r, cycleEnd, rand).1 ==> exists k: nat ::
      && FirstMinimal(r.st.slots, r.st.graph, k)
      && StepOf(r, cycleEnd, rand).0.time == ExitTime(r.st.graph[r.st.slots[k].value]) < cycleEnd
      && StepOf(r, cycleEnd, rand).0.st == Exit(r.st, r.st.slots[k].value, rand, StepOf(r, cycleEnd, rand).0.time)
    ensures !StepOf(r, cycleEnd, rand).1 && !AllEmpty(r.st.slots) ==>
      StepOf(r, cycleEnd, rand).0 == r.(time := cycleEnd) && ExitNoEarlier(r.st.slots, r.st.graph, cycleEnd)
  {
    EarliestIsFirstMinimal(r.st.slots, r.st.graph);
    var e := EarliestIn(r.st.slots, r.st.graph);
    if e.Some? {
      var k: nat :| FirstMinimal(r.st.slots, r.st.graph, k) && r.st.slots[k] == e;
      forall k' : nat | FirstMinimal(r.st.slots, r.st.graph, k')
        ensures r.st.slots[k'] == e
      {
        assert k' == k;
      }
    }
  }

  /**
   * How the loop of run leaves the machine when it ends: finished exactly
   * when no node is active, and otherwise at `cycleEnd` with every active
   * node exiting at or after it; the result is how far the machine's time
   * lies past `start`.
   */
  ghost predicate Ended(out: (RunState, Option<real>), start: real, cycleEnd: real)
  {
    && (out.0.finished <==> AllEmpty(out.0.st.slots))
    && out.1 == Some(out.0.time - start)
    && (!out.0.finished ==>
          out.0.time == cycleEnd && SlotsKnown(out.0.st.slots, out.0.st.graph.Keys) && ExitNoEarlier(out.0.st.slots, out.0.st.graph, cycleEnd))
  }

  /** A pass of the loop that goes on leaves the machine unfinished; one that stops leaves it as Ended says. */
  lemma StepOfEnds(r: RunState, start: real, cycleEnd: real, rand: nat -> nat)
    requires Consistent(r.st)
    ensures StepOf(r, cycleEnd, rand).1 ==> StepOf(r, cycleEnd, rand).0.finished == r.finished
    ensures !r.finished && !StepOf(r, cycleEnd, rand).1 ==> Ended((StepOf(r, cycleEnd, rand).0, Some(StepOf(r, cycleEnd, rand).0.time - start)), start, cycleEnd)
  {
    EarliestIsFirstMinimal(r.st.slots, r.st.graph);
    var next := StepOf(r, cycleEnd, rand);
    if !next.1 && EarliestIn(r.st.slots, r.st.graph).Some? {
      assert next.0 == r.(time := cycleEnd);
      var k: nat :| FirstMinimal(r.st.slots, r.st.graph, k) && r.st.slots[k] == EarliestIn(r.st.slots, r.st.graph);
    }
  }

  lemma ProbeT(r: RunState, start: real, cycleEnd: real, rand: nat -> nat, fuel: nat)
    requires Consistent(r.st)
    ensures SlotsKnown(RunLoop(r, start, cycleEnd, rand, fuel).0.st.slots, RunLoop(r, start, cycleEnd, rand, fuel).0.st.graph.Keys)
  {
  }

  /**
   * The loop of run with at most `fuel` passes: the state it stops in and
   * how far the machine's time then lies past `start`, or None when the
   * fuel runs out first. On an unfinished machine it ends as Ended says.
   */
  function RunLoop(r: RunState, start: real, cycleEnd: real, rand: nat -> nat, fuel: nat): (out: (RunState, Option<real>))
    requires Consistent(r.st)
    ensures Consistent(out.0.st) && out.0.st.graph.Keys == r.st.graph.Keys
    ensures !r.finished && out.1.Some? ==> Ended(out, start, cycleEnd)
    decreases fuel
  {
    if fuel == 0 then (r, None)
    else
      var next := StepOf(r, cycleEnd, rand);
      if next.1 then
        StepOfEnds(r, start, cycleEnd, rand);
        RunLoop(next.0, start, cycleEnd, rand, fuel - 1)
      else
        StepOfEnds(r, start, cycleEnd, rand);
        (next.0, Some(next.0.time - start))
  }

  /** One pass of the loop: the step either continues with the rest of the fuel or ends the cycle. */
  lemma RunLoopUnfold(r: RunState, start: real, cycleEnd: real, rand: nat -> nat, rest: nat)
    requires Consistent(r.st)
    ensures StepOf(r, cycleEnd, rand).1 ==>
      RunLoop(r, start, cycleEnd, rand, rest + 1) == RunLoop(StepOf(r, cycleEnd, rand).0, start, cycleEnd, rand, rest)
    ensures !StepOf(r, cycleEnd, rand).1 ==>
      RunLoop(r, start, cycleEnd, rand, rest + 1) == (StepOf(r, cycleEnd, rand).0, Some(StepOf(r, cycleEnd, rand).0.time - start))
  {
  }

  /** The same pass, stated for the loop's own counters. */
  lemma RunLoopAfterStep(r: RunState, next: RunState, more: bool, start: real, cycleEnd: real, rand: nat -> nat, fuel: nat, rest: nat)
    requires Consistent(r.st) && fuel == rest + 1
    requires next == StepOf(r, cycleEnd, rand).0 && more == StepOf(r, cycleEnd, rand).1
    ensures more ==> RunLoop(r, start, cycleEnd, rand, fuel) == RunLoop(next, start, cycleEnd, rand, rest)
    ensures !more ==> RunLoop(r, start, cycleEnd, rand, fuel) == (next, Some(next.time - start))
  {
    RunLoopUnfold(r, start, cycleEnd, rand, rest);
  }

  /**
   * run over the slice [start, start + length) with at most `fuel` passes
   * of its loop: a finished machine does nothing and gives 0; at time zero
   * the listed nodes are restarted and the machine finishes, giving 0,
   * when none was entered; then the loop runs.
   */
  function RunOf(r: RunState, ns: seq<NodeId>, start: real, length: real, rand: nat -> nat, fuel: nat): (out: (RunState, Option<real>))
    requires Consistent(r.st) && forall j :: 0 <= j < |ns| ==> ns[j] in r.st.graph
    ensures Consistent(out.0.st) && out.0.st.graph.Keys == r.st.graph.Keys
  {
    if r.finished then (r, Some(0.0))
    else if r.time == 0.0 then
      StartKeepsSlots(r.st, ns, 0, rand, 0.0);
      var started := Start(r.st, ns, 0, rand, 0.0);
      if !started.1 then (RunState(started.0, r.time, true), Some(0.0))
      else RunLoop(RunState(started.0, r.time, false), start, start + length, rand, fuel)
    else RunLoop(r, start, start + length, rand, fuel)
  }

  /**
   * What run promises: a finished machine stays as it was; a machine that
   * finishes at time zero gives 0 with no initial node entered and no slot
   * emptied; otherwise, when the loop ends, the machine is finished exactly
   * when no node is active, its time is then the end of the slice or the
   * last exit, and the result is that time less the start of the slice.
   */
  lemma RunOfCases(r: RunState, ns: seq<NodeId>, start: real, length: real, rand: nat -> nat, fuel: nat)
    requires Consistent(r.st) && forall j :: 0 <= j < |ns| ==> ns[j] in r.st.graph
    ensures r.finished ==> RunOf(r, ns, start, length, rand, fuel) == (r, Some(0.0))
    ensures !r.finished && r.time == 0.0 && !Start(r.st, ns, 0, rand, 0.0).1 ==>
      RunOf(r, ns, start, length, rand, fuel) == (RunState(Start(r.st, ns, 0, rand, 0.0).0, 0.0, true), Some(0.0))
    ensures !r.finished && (r.time != 0.0 || Start(r.st, ns, 0, rand, 0.0).1) && RunOf(r, ns, start, length, rand, fuel).1.Some? ==>
      Ended(RunOf(r, ns, start, length, rand, fuel), start, start + length)
  {
    if !r.finished {
      if r.time == 0.0 {
        StartKeepsSlots(r.st, ns, 0, rand, 0.0);
        var started := Start(r.st, ns, 0, rand, 0.0);
      }
    }
  }
  /** What run reports: the whole slice when the machine is still running at its end, otherwise the time it ran until it finished. */
  lemma RunOfOutcome(r: RunState, ns: seq<NodeId>, start: real, length: real, rand: nat -> nat, fuel: nat)
    requires Consistent(r.st) && forall j :: 0 <= j < |ns| ==> ns[j] in r.st.graph
    ensures !r.finished && RunOf(r, ns, start, length, rand, fuel).1.Some? && !RunOf(r, ns, start, length, rand, fuel).0.finished ==>
      var out := RunOf(r, ns, start, length, rand, fuel);
      out.0.time == start + length && out.1 == Some(length) && ExitNoEarlier(out.0.st.slots, out.0.st.graph, start + length)
    ensures !r.finished && RunOf(r, ns, start, length, rand, fuel).1.Some? && RunOf(r, ns, start, length, rand, fuel).0.finished ==>
      var out := RunOf(r, ns, start, length, rand, fuel);
      (r.time == 0.0 && out.1 == Some(0.0)) || (out.1 == Some(out.0.time - start) && AllEmpty(out.0.st.slots))
  {
    RunOfCases(r, ns, start, length, rand, fuel);
    var out := RunOf(r, ns, start, length, rand, fuel);
    if !r.finished && out.1.Some? && !out.0.finished {
      assert out.0.time - start == length;
    }
  }

  /** An unfinished machine that is still running after the restart at time zero goes on with the loop up to `cycleEnd`. */
  lemma RunOfLoops(r: RunState, ns: seq<NodeId>, start: real, length: real, cycleEnd: real, rand: nat -> nat, fuel: nat, st: Snapshot)
    requires Consistent(r.st) && forall j :: 0 <= j < |ns| ==> ns[j] in r.st.graph
    requires !r.finished && cycleEnd == start + length
    requires r.time == 0.0 ==> (st, true) == Start(r.st, ns, 0, rand, 0.0)
    requires r.time != 0.0 ==> st == r.st
    ensures Consistent(st)
    ensures RunOf(r, ns, start, length, rand, fuel) == RunLoop(RunState(st, r.time, false), start, cycleEnd, rand, fuel)
  {
    StartKeepsSlots(r.st, ns, 0, rand, 0.0);
    SameEnd(RunState(st, r.time, false), start, start + length, cycleEnd, rand, fuel);
  }

  /** The loop depends on the end of the cycle only through its value. */
  lemma SameEnd(r: RunState, start: real, cycleEnd: real, end: real, rand: nat -> nat, fuel: nat)
    requires Consistent(r.st) && cycleEnd == end
    ensures RunLoop(r, start, cycleEnd, rand, fuel) == RunLoop(r, start, end, rand, fuel)
  {
  }


  // ---------------------------------------------------------------------
  // The machine
  // ---------------------------------------------------------------------

  ghost predicate Listed(s: seq<NodeId>, keys: set<NodeId>)
  {
    forall i :: 0 <= i < |s| ==> s[i] in keys
  }

  ghost predicate Distinct(s: seq<NodeId>)
  {
    forall i, j :: 0 <= i < j < |s| ==> s[i] != s[j]
  }

  class Machine {
    /** _active_nodes */
    const slots: array<Option<NodeId>>
    /** _nodes */
    var nodes: seq<NodeId>
    /** The records of every node the machine can reach. */
    var graph: map<NodeId, Node>
    var isActivated: bool
    var isFinished: bool
    /** _time, in beats. */
    var time: real
    /** rand(): the k-th call returns rand(k). */
    const rand: nat -> nat
    /** How many times rand() has been called. */
    var drawn: nat

    /** The running state: the slots, the node records and the random stream. */
    function Snap(): Snapshot
      reads this, slots
    {
      Snapshot(slots[..], graph, drawn)
    }

    /** What running the machine relies on: a full slot table whose nodes, and their successors, are known. */
    ghost predicate Running()
      reads this, slots
    {
      slots.Length == MAX_ACTIVE_NODES && Consistent(Snap())
    }

    ghost predicate Valid()
      reads this, slots
    {
      Running() && Listed(nodes, graph.Keys) && Distinct(nodes)
    }

    /** Machine(unit): no nodes, every slot empty, time zero. */
    constructor (rand: nat -> nat)
      ensures Valid() && fresh(slots)
      ensures nodes == [] && graph == map[] && time == 0.0
      ensures !isActivated && !isFinished
      ensures forall i :: 0 <= i < MAX_ACTIVE_NODES ==> slots[i].None?
    {
      slots := new Option<NodeId>[MAX_ACTIVE_NODES](_ => None);
      nodes := [];
      graph := map[];
      isActivated := false;
      isFinished := false;
      time := 0.0;
      this.rand := rand;
      drawn := 0;
    }

    /**
     * Machine(const Machine&): the same nodes with fresh state of the
     * machine itself (deactivated, not finished, every slot empty) and the
     * copy's time. Every edge of a listed node must lead to a listed node,
     * since the copy looks up the replacement of each head.
     */
    constructor Copy(other: Machine)
      requires other.Valid()
      requires forall i :: 0 <= i < |other.nodes| ==> LeadInto(other.graph[other.nodes[i]].edges, set j | 0 <= j < |other.nodes| :: other.nodes[j])
      ensures Valid() && fresh(slots)
      ensures nodes == other.nodes && time == other.time && rand == other.rand
      ensures graph.Keys == (set j | 0 <= j < |other.nodes| :: other.nodes[j])
      ensures forall x :: x in graph ==> graph[x] == other.graph[x]
      ensures !isActivated && !isFinished
      ensures forall i :: 0 <= i < MAX_ACTIVE_NODES ==> slots[i].None?
    {
      slots := new Option<NodeId>[MAX_ACTIVE_NODES](_ => None);
      nodes := other.nodes;
      graph := map x | x in (set j | 0 <= j < |other.nodes| :: other.nodes[j]) :: other.graph[x];
      isActivated := false;
      isFinished := false;
      time := other.time;
      rand := other.rand;
      drawn := other.drawn;
      new;
      assert forall x :: x in graph ==> LeadInto(graph[x].edges, graph.Keys) by {
        forall x | x in graph ensures LeadInto(graph[x].edges, graph.Keys) {
          var j :| 0 <= j < |other.nodes| && other.nodes[j] == x;
        }
      }
    }

    method Activate()
      modifies this`isActivated
      ensures isActivated
    {
      isActivated := true;
    }

    method Deactivate()
      modifies this`isActivated
      ensures !isActivated
    {
      isActivated := false;
    }

    /**
     * add_node: the node must not be listed yet. Its record is its current
     * state (a node the machine already reaches keeps its record).
     */
    method AddNode(id: NodeId, node: Node)
      requires Valid() && id !in nodes
      requires id in graph ==> graph[id] == node
      requires LeadInto(node.edges, graph.Keys + {id})
      modifies this
      ensures Valid()
      ensures nodes == old(nodes) + [id] && graph == old(graph)[id := node]
      ensures time == old(time) && isFinished == old(isFinished) && drawn == old(drawn)
    {
      nodes := nodes + [id];
      graph := graph[id := node];
    }

    /**
     * remove_node: the node leaves the list, and every remaining listed
     * node loses its edges to it. The node's own record stays: it may still
     * occupy a slot.
     */
    method RemoveNode(id: NodeId)
      requires Valid() && id in nodes
      modifies this`nodes, this`graph
      ensures Valid()
      ensures exists k :: 0 <= k < |old(nodes)| && old(nodes)[k] == id && nodes == Without(old(nodes), k)
      ensures graph == Pruned(old(graph), nodes, id)
    {
      var k :| 0 <= k < |nodes| && nodes[k] == id;
      WithoutKeeps(nodes, k);
      nodes := Without(nodes, k);
      PruneEdges(nodes, id);
      PrunedKeepsEdgesKnown(old(graph), nodes, id);
    }

    /** The loop of remove_node: remove_edges_to(id) on each node of `ns`. */
    method PruneEdges(ns: seq<NodeId>, id: NodeId)
      requires Distinct(ns) && forall i :: 0 <= i < |ns| ==> ns[i] in graph
      modifies this`graph
      ensures graph == Pruned(old(graph), ns, id)
    {
      var i := 0;
      while i < |ns|
        invariant 0 <= i <= |ns|
        invariant graph == Pruned(old(graph), ns[..i], id)
      {
        var n := ns[i];
        PrunedStep(old(graph), ns[..i], n, id);
        TakeOneMore(ns, i);
        graph := graph[n := graph[n].(edges := RemoveEdgesTo(graph[n].edges, id))];
        i := i + 1;
      }
      assert ns[..i] == ns;
    }

    /**
     * reset: unless the machine has finished, every listed node is exited
     * and every slot emptied; time always returns to zero and the machine
     * is no longer finished.
     */
    method Reset()
      requires Valid()
      modifies this`graph, this`time, this`isFinished, slots
      ensures Valid()
      ensures time == 0.0 && !isFinished
      ensures graph.Keys == old(graph).Keys
      ensures old(isFinished) ==> graph == old(graph) && slots[..] == old(slots[..])
      ensures !old(isFinished) ==>
        && (forall x :: x in graph ==> graph[x] == if x in nodes then Exited(old(graph)[x]) else old(graph)[x])
        && (forall i :: 0 <= i < MAX_ACTIVE_NODES ==> slots[i].None?)
    {
      if !isFinished {
        var i := 0;
        while i < |nodes|
          invariant 0 <= i <= |nodes|
          invariant graph.Keys == old(graph).Keys && EdgesKnown(graph)
          invariant forall x :: x in graph ==> graph[x] == if x in nodes[..i] then Exited(old(graph)[x]) else old(graph)[x]
          invariant slots[..] == old(slots[..])
        {
          var n := nodes[i];
          assert nodes[..i + 1] == nodes[..i] + [n];
          if graph[n].active {
            graph := graph[n := Exited(graph[n])];
          } else {
            assert graph[n] == Exited(old(graph)[n]);
          }
          i := i + 1;
        }
        assert nodes[..i] == nodes;
        ghost var exited := graph;
        var j := 0;
        while j < MAX_ACTIVE_NODES
          invariant 0 <= j <= MAX_ACTIVE_NODES
          invariant forall k :: 0 <= k < j ==> slots[k].None?
          invariant graph == exited
        {
          slots[j] := None;
          j := j + 1;
        }
      }
      time := 0.0;
      isFinished := false;
    }

    /** earliest_node */
    method EarliestNode() returns (earliest: Option<NodeId>)
      requires Running()
      ensures earliest == EarliestIn(slots[..], graph)
    {
      earliest := None;
      var i := 0;
      while i < MAX_ACTIVE_NODES
        invariant 0 <= i <= MAX_ACTIVE_NODES
        invariant SlotsKnown(slots[..i], graph.Keys)
        invariant earliest == EarliestIn(slots[..i], graph)
      {
        var node := slots[i];
        assert slots[..i + 1][..i] == slots[..i];
        if node.Some? {
          if earliest.None? || ExitTime(graph[node.value]) < ExitTime(graph[earliest.value]) {
            earliest := node;
          }
        }
        i := i + 1;
      }
      assert slots[..i] == slots[..];
    }

    /**
     * enter_node: probe from a random slot; the first empty slot receives
     * the node, which becomes active at the current time. False when every
     * slot is occupied, and then nothing but the random stream changes.
     */
    method EnterNode(id: NodeId) returns (ok: bool)
      requires Running() && id in graph && !graph[id].active
      modifies this`graph, this`drawn, slots
      ensures Running() && graph.Keys == old(graph).Keys
      ensures Snap() == Enter(old(Snap()), id, rand, time) && ok == Fits(old(Snap()), rand)
    {
      EnterFillsOneFreeSlot(Snap(), id, rand, time);
      var start := rand(drawn) % MAX_ACTIVE_NODES;
      var index := ProbeSlots(start);
      drawn := drawn + 1;
      if index.None? {
        return false;
      }
      graph := graph[id := Entered(graph[id], time)];
      slots[index.value] := Some(id);
      assert slots[..] == old(slots[..])[index.value := Some(id)];
      return true;
    }

    /** The probing loop of enter_node: from `start`, the first empty slot in cyclic order. */
    method ProbeSlots(start: nat) returns (index: Option<nat>)
      requires slots.Length == MAX_ACTIVE_NODES && start < MAX_ACTIVE_NODES
      ensures index == FreeSlot(slots[..], start)
    {
      var probe := start;
      var i := 0;
      while i < MAX_ACTIVE_NODES
        invariant 0 <= i <= MAX_ACTIVE_NODES && probe < MAX_ACTIVE_NODES
        invariant i < MAX_ACTIVE_NODES ==> probe == Cyclic(start, i)
        invariant FirstEmptyFrom(slots[..], start, i) == FreeSlot(slots[..], start)
      {
        if slots[probe].None? {
          return Some(probe);
        }
        if i + 1 < MAX_ACTIVE_NODES {
          CyclicNext(start, i);
        }
        probe := (probe + 1) % MAX_ACTIVE_NODES;
        i := i + 1;
      }
      return None;
    }

    /** The slot loop of exit_node: every slot holding `id` is emptied. */
    method VacateSlots(id: NodeId)
      requires slots.Length == MAX_ACTIVE_NODES
      modifies slots
      ensures slots[..] == Vacate(old(slots[..]), id)
    {
      var i := 0;
      while i < MAX_ACTIVE_NODES
        invariant 0 <= i <= MAX_ACTIVE_NODES
        invariant forall k :: 0 <= k < i ==> slots[k] == Vacate(old(slots[..]), id)[k]
        invariant forall k :: i <= k < MAX_ACTIVE_NODES ==> slots[k] == old(slots[k])
      {
        if slots[i] == Some(id) {
          slots[i] := None;
        }
        i := i + 1;
      }
    }

    /**
     * exit_node: the node is exited, every slot holding it is emptied, and
     * successors are entered at the current time. A selector draws once
     * and enters the head of the first edge whose share of [0, 1] strictly
     * contains the draw and whose head is inactive; any other node draws
     * once per edge and enters each inactive head whose draw is at most the
     * edge's probability.
     */
    method ExitNode(id: NodeId)
      requires Running() && id in graph
      modifies this`graph, this`drawn, slots
      ensures Running() && graph.Keys == old(graph).Keys
      ensures Snap() == Exit(old(Snap()), id, rand, time)
    {
      ghost var st := Snap();
      ExitCases(st, id, rand, time);
      VacateNode(id);
      ghost var v := Snap();
      assert v == Vacated(st, id) && v.drawn == st.drawn;
      assert graph[id] == Exited(st.graph[id]);
      var edges := graph[id].edges;
      assert edges == st.graph[id].edges;
      if graph[id].selector {
        var u := Draw();
        assert Snap() == v.(drawn := st.drawn + 1) && u == Normal(rand(st.drawn));
        ChooseSuccessor(edges, u);
      } else {
        FollowEdges(edges);
      }
    }

    /** The first part of exit_node: the node is exited and every slot holding it is emptied. */
    method VacateNode(id: NodeId)
      requires Running() && id in graph
      modifies this`graph, slots
      ensures Running() && graph.Keys == old(graph).Keys
      ensures Snap() == Vacated(old(Snap()), id)
    {
      VacatedConsistent(Snap(), id);
      graph := graph[id := Exited(graph[id])];
      VacateSlots(id);
    }

    /** rand(), normalised to [0, 1]: the next value of the random stream. */
    method Draw() returns (u: real)
      requires Running()
      modifies this`drawn
      ensures Running() && Snap() == old(Snap()).(drawn := old(drawn) + 1)
      ensures u == Normal(rand(old(drawn)))
    {
      u := Normal(rand(drawn));
      drawn := drawn + 1;
    }

    /** The selector branch of exit_node, after the draw u. */
    method ChooseSuccessor(edges: seq<Edge>, u: real)
      requires Running() && LeadInto(edges, graph.Keys)
      modifies this`graph, this`drawn, slots
      ensures Running() && graph.Keys == old(graph).Keys
      ensures Snap() == Select(old(Snap()), edges, u, rand, time)
    {
      ghost var c := Chosen(edges, graph, u, 0, 0.0);
      var rangeMin := 0.0;
      var i := 0;
      while i < |edges|
        invariant 0 <= i <= |edges|
        invariant Chosen(edges, graph, u, i, rangeMin) == c
        invariant Snap() == old(Snap())
      {
        var head := edges[i].head;
        if !graph[head].active && u > rangeMin && u < rangeMin + edges[i].probability {
          assert c == Some(head);
          ghost var st := Snap();
          var _ := EnterNode(head);
          assert Snap() == Enter(st, head, rand, time) == Select(st, edges, u, rand, time);
          return;
        }
        rangeMin := rangeMin + edges[i].probability;
        i := i + 1;
      }
      assert c == None;
      assert Snap() == Select(Snap(), edges, u, rand, time);
    }

    /** The non-selector branch of exit_node. */
    method FollowEdges(edges: seq<Edge>)
      requires Running() && LeadInto(edges, graph.Keys)
      modifies this`graph, this`drawn, slots
      ensures Running() && graph.Keys == old(graph).Keys
      ensures Snap() == Follow(old(Snap()), edges, 0, rand, time)
    {
      ghost var goal := Follow(Snap(), edges, 0, rand, time);
      var i := 0;
      while i < |edges|
        invariant 0 <= i <= |edges| && Running() && LeadInto(edges, graph.Keys) && graph.Keys == old(graph).Keys
        invariant Follow(Snap(), edges, i, rand, time) == goal
      {
        ghost var before := Snap();
        FollowEdge(edges[i]);
        assert Follow(before, edges, i, rand, time) == Follow(Snap(), edges, i + 1, rand, time);
        i := i + 1;
      }
    }

    /** One pass of the non-selector loop of exit_node. */
    method FollowEdge(e: Edge)
      requires Running() && e.head in graph
      modifies this`graph, this`drawn, slots
      ensures Running() && graph.Keys == old(graph).Keys
      ensures Snap() == FollowOne(old(Snap()), e, rand, time)
    {
      ghost var st := Snap();
      FollowOneCases(st, e, rand, time);
      var u := Draw();
      ghost var next := Snap();
      assert next == st.(drawn := st.drawn + 1) && u == Normal(rand(st.drawn));
      if u <= e.probability && !graph[e.head].active {
        var _ := EnterNode(e.head);
        assert Snap() == Enter(next, e.head, rand, time);
      } else {
        assert Snap() == next;
      }
    }

    /** The first part of run at time zero: each listed node is exited if active and entered if initial. */
    method EnterInitial() returns (entered: bool)
      requires Valid()
      modifies this`graph, this`drawn, slots
      ensures Valid()
      ensures (Snap(), entered) == Start(old(Snap()), nodes, 0, rand, time)
    {
      ghost var goal := Start(Snap(), nodes, 0, rand, time);
      entered := false;
      var i := 0;
      while i < |nodes|
        invariant 0 <= i <= |nodes| && Running() && graph.Keys == old(graph).Keys && Listed(nodes, graph.Keys)
        invariant Start(Snap(), nodes, i, rand, time).0 == goal.0
        invariant (entered || Start(Snap(), nodes, i, rand, time).1) == goal.1
      {
        StartStep(Snap(), nodes, i, rand, time);
        var ok := RestartNode(nodes[i]);
        entered := entered || ok;
        i := i + 1;
      }
    }

    /** One pass of the time-zero loop of run. */
    method RestartNode(n: NodeId) returns (ok: bool)
      requires Running() && n in graph
      modifies this`graph, this`drawn, slots
      ensures Running() && graph.Keys == old(graph).Keys
      ensures (Snap(), ok) == StartOne(old(Snap()), n, rand, time)
    {
      ghost var st := Snap();
      if graph[n].active {
        RecordUpdateConsistent(Snap(), n, Exited(graph[n]));
        graph := graph[n := Exited(graph[n])];
      }
      ghost var exited := Snap();
      assert exited == if st.graph[n].active then st.(graph := st.graph[n := Exited(st.graph[n])]) else st;
      ok := false;
      if graph[n].initial {
        ok := EnterNode(n);
        assert (Snap(), ok) == (Enter(exited, n, rand, time), Fits(exited, rand)) == StartOne(st, n, rand, time);
      } else {
        assert (Snap(), ok) == (exited, false) == StartOne(st, n, rand, time);
      }
    }

    /**
     * run over the slice [start, start + length), in beats, with at most
     * `fuel` passes of its loop. A finished machine does nothing. At time
     * zero the initial nodes are entered, and the machine finishes when
     * none could be. Then active nodes are exited in order of exit time
     * while they exit before the end of the slice; the machine finishes
     * when no node is active, and otherwise its time becomes the end of
     * the slice. The result is how far the machine's time lies past the
     * start of the slice (zero when it finished at time zero), or None when
     * the fuel ran out.
     */
    method Run(start: real, length: real, fuel: nat) returns (ran: Option<real>)
      requires Valid() && isActivated
      modifies this`graph, this`drawn, this`time, this`isFinished, slots
      ensures Valid()
      ensures (RunState(Snap(), time, isFinished), ran) == RunOf(RunState(old(Snap()), old(time), old(isFinished)), nodes, start, length, rand, fuel)
      ensures old(isFinished) ==> ran == Some(0.0) && isFinished && Snap() == old(Snap()) && time == old(time)
    {
      ghost var r := RunState(Snap(), time, isFinished);
      ghost var out := RunOf(r, nodes, start, length, rand, fuel);
      if isFinished {
        ran := Some(0.0);
      } else {
        var stopped := StartAtZero();
        if stopped {
          ran := Some(0.0);
        } else {
          var cycleEnd := start + length;
          RunOfLoops(r, nodes, start, length, cycleEnd, rand, fuel, Snap());
          ran := RunUntil(start, cycleEnd, fuel);
        }
      }
      assert (RunState(Snap(), time, isFinished), ran) == out;
    }

    /** The time-zero part of run: the initial nodes are entered, and the machine finishes when none could be. */
    method StartAtZero() returns (stopped: bool)
      requires Valid() && !isFinished
      modifies this`graph, this`drawn, this`isFinished, slots
      ensures Valid() && graph.Keys == old(graph).Keys
      ensures stopped == isFinished
      ensures old(time) == 0.0 ==> (Snap(), !stopped) == Start(old(Snap()), nodes, 0, rand, 0.0)
      ensures old(time) != 0.0 ==> !stopped && Snap() == old(Snap())
    {
      if time == 0.0 {
        var entered := EnterInitial();
        if !entered {
          isFinished := true;
          return true;
        }
      }
      return false;
    }

    /** The loop of run: exit active nodes in order of exit time until `cycleEnd`. */
    method RunUntil(start: real, cycleEnd: real, fuel: nat) returns (ran: Option<real>)
      requires Running() && !isFinished
      modifies this`graph, this`drawn, this`time, this`isFinished, slots
      ensures Running() && graph.Keys == old(graph).Keys
      ensures ran.Some? ==> (isFinished <==> AllEmpty(slots[..]))
      ensures ran.Some? && !isFinished ==> time == cycleEnd && ran == Some(cycleEnd - start) && ExitNoEarlier(slots[..], graph, cycleEnd)
      ensures ran.Some? && isFinished ==> ran == Some(time - start)
      ensures (RunState(Snap(), time, isFinished), ran) == RunLoop(RunState(old(Snap()), old(time), false), start, cycleEnd, rand, fuel)
    {
      ghost var goal := RunLoop(RunState(Snap(), time, false), start, cycleEnd, rand, fuel);
      var passes := fuel;
      while true
        invariant Running() && !isFinished && graph.Keys == old(graph).Keys
        invariant RunLoop(RunState(Snap(), time, false), start, cycleEnd, rand, passes) == goal
        decreases passes
      {
        if passes == 0 {
          return None;
        }
        ghost var prev := RunState(Snap(), time, false);
        ghost var before := passes;
        passes := passes - 1;
        var more := Step(cycleEnd);
        RunLoopAfterStep(prev, RunState(Snap(), time, isFinished), more, start, cycleEnd, rand, before, passes);
        if !more {
          return Some(time - start);
        }
      }
    }

    method Step(cycleEnd: real) returns (more: bool)
      requires Running() && !isFinished
      modifies this`graph, this`drawn, this`time, this`isFinished, slots
      ensures Running() && graph.Keys == old(graph).Keys
      ensures more ==> !isFinished
      ensures !more && isFinished ==> AllEmpty(slots[..])
      ensures !more && !isFinished ==> time == cycleEnd && ExitNoEarlier(slots[..], graph, cycleEnd)
      ensures RunState(Snap(), time, isFinished) == StepOf(RunState(old(Snap()), old(time), false), cycleEnd, rand).0
      ensures more == StepOf(RunState(old(Snap()), old(time), false), cycleEnd, rand).1
    {
      var earliest := EarliestNode();
      EarliestIsFirstMinimal(slots[..], graph);
      if earliest.None? {
        isFinished := true;
        return false;
      } else if ExitTime(graph[earliest.value]) < cycleEnd {
        time := ExitTime(graph[earliest.value]);
        ExitNode(earliest.value);
        return true;
      } else {
        time := cycleEnd;
        return false;
      }
    }
  }
}
