/** The handling of a DAG request (submit_request.cpp): every pass colours the graph from the
    logged statuses of its nodes, queues and aborts nodes, and may end with a verdict. */
module DagEngine {
  import opened Wrappers

  /** A vertex, numbered in the order in which every pass walks the graph; edges may lead from
      any vertex to any other. */
  type Node = nat

  datatype DoneCode = DoneOk | DoneFailed | DoneCancelled

  datatype NodeEvent = DoneEvent(code: DoneCode, fromLogMonitor: bool) | OtherEvent

  datatype Status =
    | Submitted | Waiting | Ready | Scheduled | Running | Done | Cleared | Aborted | Cancelled

  datatype NodeState = NodeState(status: Status, events: seq<NodeEvent>)

  datatype Colour = White | Gray | Green | Red

  predicate IsDoneEvent(e: NodeEvent) {
    e.DoneEvent? && e.fromLogMonitor
  }

  /** The code of the last done event in the order of logging. */
  function LastDone(events: seq<NodeEvent>): Option<DoneCode> {
    if events == [] then None
    else if IsDoneEvent(events[|events| - 1]) then Some(events[|events| - 1].code)
    else LastDone(events[..|events| - 1])
  }

  /** That is the event at `k` if it is a done event and none behind it is, and there is none if no
      event is one. */
  lemma {:induction false} LastDoneAt(events: seq<NodeEvent>, k: nat)
    requires forall j :: k < j < |events| ==> !(events[j].DoneEvent? && events[j].fromLogMonitor)
    requires k < |events| ==> events[k].DoneEvent? && events[k].fromLogMonitor
    requires k >= |events| ==> forall j :: 0 <= j < |events| ==> !(events[j].DoneEvent? && events[j].fromLogMonitor)
    ensures LastDone(events) == if k < |events| then Some(events[k].code) else None
  {
    if events != [] && k != |events| - 1 {
      LastDoneAt(events[..|events| - 1], if k < |events| then k else |events| - 1);
    }
  }

  /** std::find_if over the reversed events, as is_last_done does it. */
  method IsLastDone(events: seq<NodeEvent>, code: DoneCode) returns (r: bool)
    ensures r <==> LastDone(events) == Some(code)
  {
    var i := |events|;
    assert events[..i] == events;
    while i > 0
      invariant 0 <= i <= |events|
      invariant LastDone(events[..i]) == LastDone(events)
    {
      assert events[..i][..i - 1] == events[..i - 1];
      i := i - 1;
      if IsDoneEvent(events[i]) {
        return events[i].code == code;
      }
    }
    r := false;
  }

  predicate EndedWell(n: NodeState) {
    n.status == Done && LastDone(n.events) == Some(DoneOk)
  }

  predicate EndedBadly(n: NodeState) {
    n.status == Aborted || n.status == Cancelled
  }

  function ColourOf(n: NodeState): Colour {
    match n.status
    case Aborted => Red
    case Cancelled => Red
    case Done => if LastDone(n.events) == Some(DoneOk) then Green else Gray
    case Submitted => White
    case _ => Gray
  }

  /** What the colours stand for: with any other status, and with DONE without OK, a node is gray. */
  lemma ColoursMean(n: NodeState)
    ensures ColourOf(n) == White <==> n.status == Submitted
    ensures ColourOf(n) == Green <==> n.status == Done && LastDone(n.events) == Some(DoneOk)
    ensures ColourOf(n) == Red <==> n.status == Aborted || n.status == Cancelled
    ensures ColourOf(n) == Gray <==>
              (n.status in {Waiting, Ready, Scheduled, Running, Cleared}
               || (n.status == Done && LastDone(n.events) != Some(DoneOk)))
  {
  }

  /** For each vertex the sources of its in-edges. */
  datatype Graph = Graph(preds: seq<seq<Node>>)
  {
    function Size(): nat {
      |preds|
    }

    ghost predicate WellFormed() {
      forall v, j :: 0 <= v < |preds| && 0 <= j < |preds[v]| ==> preds[v][j] < |preds|
    }

    /** A rank that grows along every edge: the graph has no cycle. */
    ghost predicate Acyclic() {
      exists rank: seq<nat> :: IsRank(rank)
    }

    ghost predicate IsRank(rank: seq<nat>) {
      && |rank| == |preds|
      && forall v, j :: 0 <= v < |preds| && 0 <= j < |preds[v]| ==>
           preds[v][j] < |preds| && rank[preds[v][j]] < rank[v]
    }

    /** `path` leads from `u` along edges to `v`, through at least one edge. */
    ghost predicate Ancestor(u: Node, v: Node, path: seq<Node>)
      decreases |path|
    {
      v < |preds| && if path == [] then u in preds[v]
      else path[0] in preds[v] && Ancestor(u, path[0], path[1..])
    }
  }

  datatype Verdict = Open | Succeeded | Failed

  /** `queued`: nodes ever queued; `felled`: nodes aborted because a parent was red; `killed`:
      nodes cancelled or aborted from outside before they were queued; `scheduled`: another pass
      has been scheduled. */
  datatype Dag = Dag(nodes: seq<NodeState>, queued: set<Node>, felled: set<Node>, killed: set<Node>,
                     verdict: Verdict, scheduled: bool)

  ghost predicate Fits(g: Graph, nodes: seq<NodeState>) {
    g.WellFormed() && |nodes| == g.Size()
  }

  // ---------------------------------------------------------------- what a pass amounts to

  /** Not started, and its parents are all green when the pass begins. */
  ghost predicate CanStart(g: Graph, nodes: seq<NodeState>, v: Node)
    requires Fits(g, nodes) && v < |nodes|
  {
    ColourOf(nodes[v]) == White &&
    forall j :: 0 <= j < |g.preds[v]| ==> ColourOf(nodes[g.preds[v][j]]) == Green
  }

  /** Not started, with a parent that was red when the pass began or was felled earlier in it. */
  ghost predicate MustFall(g: Graph, nodes: seq<NodeState>, v: Node)
    requires Fits(g, nodes) && v < |nodes|
    decreases v
  {
    ColourOf(nodes[v]) == White &&
    exists j :: 0 <= j < |g.preds[v]| &&
      var p := g.preds[v][j];
      ColourOf(nodes[p]) == Red || (p < v && MustFall(g, nodes, p))
  }

  ghost predicate Complete(nodes: seq<NodeState>) {
    forall v :: 0 <= v < |nodes| ==> ColourOf(nodes[v]) == Green || ColourOf(nodes[v]) == Red
  }

  ghost predicate AllGreen(nodes: seq<NodeState>) {
    forall v :: 0 <= v < |nodes| ==> ColourOf(nodes[v]) == Green
  }

  /** A queued node leaves SUBMITTED; a felled one is logged as aborted. */
  ghost function StatusAfter(g: Graph, nodes: seq<NodeState>, v: Node): NodeState
    requires Fits(g, nodes) && v < |nodes|
  {
    if CanStart(g, nodes, v) then nodes[v].(status := Waiting)
    else if MustFall(g, nodes, v) then nodes[v].(status := Aborted)
    else nodes[v]
  }

  ghost function VerdictOn(nodes: seq<NodeState>): Verdict {
    if !Complete(nodes) then Open else if AllGreen(nodes) then Succeeded else Failed
  }

  /** A pass takes the state `d` to the state `e`. */
  ghost predicate PassLeads(g: Graph, d: Dag, e: Dag)
    requires Fits(g, d.nodes)
  {
    && |e.nodes| == |d.nodes|
    && (forall v :: 0 <= v < |d.nodes| ==> e.nodes[v] == StatusAfter(g, d.nodes, v))
    && (forall v: Node :: v in e.queued <==> v in d.queued || (v < |d.nodes| && CanStart(g, d.nodes, v)))
    && (forall v: Node :: v in e.felled <==> v in d.felled || (v < |d.nodes| && MustFall(g, d.nodes, v)))
    && e.killed == d.killed
    && e.verdict == (if Complete(d.nodes) then VerdictOn(d.nodes) else d.verdict)
    && e.scheduled == !Complete(d.nodes)
  }

  lemma NotBoth(g: Graph, nodes: seq<NodeState>, v: Node)
    requires Fits(g, nodes) && v < |nodes| && MustFall(g, nodes, v)
    ensures !CanStart(g, nodes, v)
  {
  }

  /** A parent is aborted or cancelled: when the pass begins, or by this pass before it comes to the
      node. */
  ghost predicate BelowFailure(g: Graph, before: seq<NodeState>, after: seq<NodeState>, v: Node)
    requires Fits(g, before) && |after| == |before| && v < |before|
  {
    exists j :: 0 <= j < |g.preds[v]| &&
      var p := g.preds[v][j];
      EndedBadly(before[p]) || (p < v && EndedBadly(after[p]))
  }

  lemma FallsExactly(g: Graph, d: Dag, e: Dag, v: Node)
    requires Fits(g, d.nodes) && PassLeads(g, d, e) && v < |d.nodes| && d.nodes[v].status == Submitted
    ensures MustFall(g, d.nodes, v) <==> BelowFailure(g, d.nodes, e.nodes, v)
  {
    forall j | 0 <= j < |g.preds[v]|
      ensures
        var p := g.preds[v][j];
        EndedBadly(e.nodes[p]) <==> EndedBadly(d.nodes[p]) || MustFall(g, d.nodes, p)
    {
      EndsBadlyExactly(g, d, e, g.preds[v][j]);
    }
  }

  lemma EndsBadlyExactly(g: Graph, d: Dag, e: Dag, p: Node)
    requires Fits(g, d.nodes) && PassLeads(g, d, e) && p < |d.nodes|
    ensures EndedBadly(e.nodes[p]) <==> EndedBadly(d.nodes[p]) || MustFall(g, d.nodes, p)
  {
    assert e.nodes[p] == StatusAfter(g, d.nodes, p);
    if MustFall(g, d.nodes, p) {
      NotBoth(g, d.nodes, p);
    }
  }

  /** In terms of statuses: only nodes that are SUBMITTED change, to WAITING when all their parents
      have ended well, and to ABORTED when one has ended badly or was aborted earlier in the pass. */
  lemma PassInStatuses(g: Graph, d: Dag, e: Dag, v: Node)
    requires Fits(g, d.nodes) && PassLeads(g, d, e) && v < |d.nodes|
    ensures
      var starts := d.nodes[v].status == Submitted && forall p <- g.preds[v] :: EndedWell(d.nodes[p]);
      var falls := d.nodes[v].status == Submitted && BelowFailure(g, d.nodes, e.nodes, v);
      && (starts ==> !falls)
      && e.nodes[v] == (if starts then d.nodes[v].(status := Waiting)
                        else if falls then d.nodes[v].(status := Aborted) else d.nodes[v])
      && (v in e.queued <==> v in d.queued || starts)
      && (v in e.felled <==> v in d.felled || falls)
  {
    assert forall j :: 0 <= j < |g.preds[v]| ==> g.preds[v][j] < |d.nodes|;
    assert e.nodes[v] == StatusAfter(g, d.nodes, v);
    if d.nodes[v].status == Submitted {
      FallsExactly(g, d, e, v);
      if MustFall(g, d.nodes, v) {
        NotBoth(g, d.nodes, v);
      }
    }
  }

  /** There is a verdict if and only if all nodes have ended, and it is success if and only if all
      ended well. */
  lemma VerdictInStatuses(g: Graph, d: Dag, e: Dag)
    requires Fits(g, d.nodes) && PassLeads(g, d, e)
    ensures if forall v :: 0 <= v < |d.nodes| ==> EndedWell(d.nodes[v]) || EndedBadly(d.nodes[v]) then
              && e.verdict == (if forall v :: 0 <= v < |d.nodes| ==> EndedWell(d.nodes[v]) then Succeeded else Failed)
              && !e.scheduled
            else e.verdict == d.verdict && e.scheduled
  {
    assert (forall v :: 0 <= v < |d.nodes| ==> EndedWell(d.nodes[v]) || EndedBadly(d.nodes[v])) <==> Complete(d.nodes);
  }

  /** The walk, begun in the state `d`, has treated the first `k` vertices and is now in `e`. */
  ghost predicate Treated(g: Graph, d: Dag, e: Dag, k: nat)
    requires Fits(g, d.nodes) && k <= |d.nodes|
  {
    && |e.nodes| == |d.nodes|
    && (forall v :: 0 <= v < |d.nodes| ==> e.nodes[v] == if v < k then StatusAfter(g, d.nodes, v) else d.nodes[v])
    && (forall v: Node :: v in e.queued <==> v in d.queued || (v < k && CanStart(g, d.nodes, v)))
    && (forall v: Node :: v in e.felled <==> v in d.felled || (v < k && MustFall(g, d.nodes, v)))
    && e == d.(nodes := e.nodes, queued := e.queued, felled := e.felled)
  }

  /** What the treatment of the next vertex must do. */
  lemma TreatOne(g: Graph, d: Dag, e: Dag, k: nat)
    requires Fits(g, d.nodes) && k < |d.nodes| && Treated(g, d, e, k)
    ensures e.nodes[k] == d.nodes[k] && !(CanStart(g, d.nodes, k) && MustFall(g, d.nodes, k))
    ensures
      Treated(g, d,
              if CanStart(g, d.nodes, k) then
                e.(nodes := e.nodes[k := e.nodes[k].(status := Waiting)], queued := e.queued + {k})
              else if MustFall(g, d.nodes, k) then
                e.(nodes := e.nodes[k := e.nodes[k].(status := Aborted)], felled := e.felled + {k})
              else e, k + 1)
  {
  }

  /** The colours in the middle of the walk: a felled vertex is red, a vertex without parents
      that was queued is gray, every other one has the colour the pass began with. */
  ghost predicate Walked(g: Graph, nodes: seq<NodeState>, v: Node, colour: seq<Colour>)
    requires Fits(g, nodes) && v <= |nodes|
  {
    && |colour| == |nodes|
    && forall u :: 0 <= u < |nodes| ==>
         if u < v && MustFall(g, nodes, u) then colour[u] == Red
         else colour[u] == ColourOf(nodes[u]) || (u < v && CanStart(g, nodes, u) && colour[u] == Gray)
  }

  /** In the middle of a walk a parent looks red if it was red or has been felled, and green
      only if it was green when the walk began. */
  lemma ParentsSeen(g: Graph, nodes: seq<NodeState>, v: Node, colour: seq<Colour>)
    requires Fits(g, nodes) && v < |nodes| && Walked(g, nodes, v, colour) && ColourOf(nodes[v]) == White
    ensures (exists j :: 0 <= j < |g.preds[v]| && colour[g.preds[v][j]] == Red) <==> MustFall(g, nodes, v)
    ensures (forall j :: 0 <= j < |g.preds[v]| ==> colour[g.preds[v][j]] == Green) <==> CanStart(g, nodes, v)
  {
    forall j | 0 <= j < |g.preds[v]|
      ensures colour[g.preds[v][j]] == Red <==>
              ColourOf(nodes[g.preds[v][j]]) == Red || (g.preds[v][j] < v && MustFall(g, nodes, g.preds[v][j]))
      ensures colour[g.preds[v][j]] == Green <==> ColourOf(nodes[g.preds[v][j]]) == Green
    {
      assert g.preds[v][j] < |nodes|;
    }
  }

  // ------------------------------------------------------------------------------- the code

  class DagRequest {
    const g: Graph
    var nodes: seq<NodeState>
    var queued: set<Node>
    var felled: set<Node>
    ghost var killed: set<Node>
    var verdict: Verdict
    var scheduled: bool

    ghost function State(): Dag
      reads this
    {
      Dag(nodes, queued, felled, killed, verdict, scheduled)
    }

    ghost predicate Valid()
      reads this
    {
      Fits(g, nodes)
    }

    constructor (g: Graph, nodes: seq<NodeState>)
      requires Fits(g, nodes)
      ensures Valid() && this.g == g && State() == Dag(nodes, {}, {}, {}, Open, true)
    {
      this.g, this.nodes := g, nodes;
      queued, felled, killed := {}, {}, {};
      verdict, scheduled := Open, true;
    }

    static method NodeColour(n: NodeState) returns (c: Colour)
      ensures c == ColourOf(n)
    {
      c := Gray;
      if n.status == Aborted || n.status == Cancelled {
        c := Red;
      } else if n.status == Done {
        var ok := IsLastDone(n.events, DoneOk);
        c := if ok then Green else Gray;
      } else if n.status == Submitted {
        c := White;
      }
    }

    /** The first loop: the colours of this pass. */
    method Recolour() returns (colour: seq<Colour>)
      ensures |colour| == |nodes| && forall v :: 0 <= v < |nodes| ==> colour[v] == ColourOf(nodes[v])
      ensures forall v :: 0 <= v < |nodes| ==>
                && (colour[v] == White <==> nodes[v].status == Submitted)
                && (colour[v] == Green <==> EndedWell(nodes[v]))
                && (colour[v] == Red <==> EndedBadly(nodes[v]))
    {
      colour := [];
      for v := 0 to |nodes|
        invariant |colour| == v && forall u :: 0 <= u < v ==> colour[u] == ColourOf(nodes[u])
      {
        var c := NodeColour(nodes[v]);
        colour := colour + [c];
      }
    }

    /** The scan of the in-edges of a node: stops at the first red parent. */
    method ScanParents(v: Node, colour: seq<Colour>) returns (red: bool, green: bool)
      requires g.WellFormed() && v < |g.preds| == |colour|
      ensures red <==> exists j :: 0 <= j < |g.preds[v]| && colour[g.preds[v][j]] == Red
      ensures green <==> forall j :: 0 <= j < |g.preds[v]| ==> colour[g.preds[v][j]] == Green
    {
      green := true;
      for i := 0 to |g.preds[v]|
        invariant forall j :: 0 <= j < i ==> colour[g.preds[v][j]] != Red
        invariant green <==> forall j :: 0 <= j < i ==> colour[g.preds[v][j]] == Green
      {
        var src := g.preds[v][i];
        if colour[src] == Red {
          return true, false;
        } else if colour[src] == White || colour[src] == Gray {
          green := false;
        }
      }
      red := false;
    }

    /** The second loop's work on one vertex; `before` are the states the pass began with. */
    method Visit(v: Node, colour: seq<Colour>, ghost before: seq<NodeState>)
        returns (after: seq<Colour>, queue: bool, fell: bool, open: bool)
      requires Fits(g, before) && v < |before| && Walked(g, before, v, colour)
      ensures Walked(g, before, v + 1, after)
      ensures queue == CanStart(g, before, v) && fell == MustFall(g, before, v)
      ensures open <==> ColourOf(before[v]) in {White, Gray}
    {
      after, queue, fell, open := colour, false, false, false;
      if colour[v] == Gray {
        open := true;
      } else if colour[v] == White {
        open := true;
        if g.preds[v] == [] {
          queue := true;
          after := colour[v := Gray];
        } else {
          var red, green := ScanParents(v, colour);
          ParentsSeen(g, before, v, colour);
          if red {
            fell := true;
            after := colour[v := Red];
          } else if green {
            queue := true;
          }
        }
      }
    }

    /** The third loop: are all vertices green? */
    static method Judge(colour: seq<Colour>) returns (allGreen: bool)
      ensures allGreen <==> forall v :: 0 <= v < |colour| ==> colour[v] == Green
    {
      for v := 0 to |colour|
        invariant forall u :: 0 <= u < v ==> colour[u] == Green
      {
        if colour[v] != Green {
          return false;
        }
      }
      allGreen := true;
    }

    /** The second loop: queues a node, or logs it as aborted, as it goes. */
    method Walk(colour0: seq<Colour>) returns (completed: bool, colour: seq<Colour>)
      requires Valid() && Walked(g, nodes, 0, colour0)
      modifies this`nodes, this`queued, this`felled
      ensures Treated(g, old(State()), State(), |old(nodes)|)
      ensures completed <==> Complete(old(nodes))
      ensures Walked(g, old(nodes), |nodes|, colour)
    {
      ghost var before := State();
      completed, colour := true, colour0;
      for v := 0 to |nodes|
        invariant Treated(g, before, State(), v) && Walked(g, before.nodes, v, colour)
        invariant completed <==> forall u :: 0 <= u < v ==> ColourOf(before.nodes[u]) !in {White, Gray}
      {
        TreatOne(g, before, State(), v);
        var queue, fell, open;
        colour, queue, fell, open := Visit(v, colour, before.nodes);
        if queue {
          queued := queued + {v};
          nodes := nodes[v := nodes[v].(status := Waiting)];
        } else if fell {
          felled := felled + {v};
          nodes := nodes[v := nodes[v].(status := Aborted)];
        }
        if open {
          completed := false;
        }
      }
    }

    /** One execution of the DAG branch of the request. */
    method Pass()
      requires Valid() && scheduled
      modifies this`nodes, this`queued, this`felled, this`verdict, this`scheduled
      ensures Valid() && PassLeads(g, old(State()), State())
    {
      scheduled := false;
      ghost var before := nodes;
      var colour := Recolour();
      var completed;
      completed, colour := Walk(colour);
      if !completed {
        scheduled := true;
      } else {
        assert forall v :: 0 <= v < |before| ==> colour[v] == ColourOf(before[v]);
        var allGreen := Judge(colour);
        verdict := if allGreen then Succeeded else Failed;
      }
    }
  }
}
