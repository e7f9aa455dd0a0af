/** Whole runs of a DAG request: passes of the engine, interleaved with what happens to the nodes. */
module DagTheorems {
  import opened Wrappers
  import opened DagEngine

  datatype Action =
    | Pass
    | Change(v: Node, now: NodeState)

  /** A node that was queued goes anywhere but back to SUBMITTED, as often as it likes; a node not
      yet started may be cancelled or aborted from outside; nodes that have ended stay. */
  ghost predicate Allowed(was: NodeState, now: NodeState) {
    if was.status == Submitted then now.status == Aborted || now.status == Cancelled
    else InFlight(was) && now.status != Submitted
  }

  predicate InFlight(n: NodeState) {
    n.status != Submitted && !EndedWell(n) && !EndedBadly(n)
  }

  ghost predicate Step(g: Graph, d: Dag, a: Action, e: Dag)
    requires Fits(g, d.nodes)
  {
    match a
    case Pass => d.scheduled && PassLeads(g, d, e)
    case Change(v, now) =>
      && v < |d.nodes| && Allowed(d.nodes[v], now)
      && e == d.(nodes := d.nodes[v := now],
                 killed := if ColourOf(d.nodes[v]) == White then d.killed + {v} else d.killed)
  }

  ghost predicate Initial(g: Graph, d: Dag) {
    && Fits(g, d.nodes)
    && (forall v :: 0 <= v < |d.nodes| ==> d.nodes[v].status == Submitted)
    && d.queued == {} && d.felled == {} && d.killed == {} && d.verdict == Open && d.scheduled
  }

  ghost predicate IsRun(g: Graph, acts: seq<Action>, ds: seq<Dag>) {
    && |ds| == |acts| + 1 && Initial(g, ds[0])
    && (forall i :: 0 <= i < |ds| ==> Fits(g, ds[i].nodes))
    && (forall i :: 0 <= i < |acts| ==> Step(g, ds[i], acts[i], ds[i + 1]))
  }

  ghost predicate Inv(g: Graph, d: Dag)
    requires Fits(g, d.nodes)
  {
    && (forall v <- d.queued :: v < |d.nodes| && ParentsDone(g, d, v))
    && (forall v <- d.felled :: v < |d.nodes| && v !in d.queued && ColourOf(d.nodes[v]) == Red && HasRedParent(g, d, v))
    && (forall v <- d.killed :: v < |d.nodes| && v !in d.queued && ColourOf(d.nodes[v]) == Red)
    && (forall v: Node :: v < |d.nodes| ==> Accounted(d, v))
    && (d.verdict != Open ==> d.verdict == VerdictOn(d.nodes))
    && (d.scheduled <==> d.verdict == Open)
  }

  ghost predicate ParentsDone(g: Graph, d: Dag, v: Node)
    requires Fits(g, d.nodes) && v < |d.nodes|
  {
    forall j :: 0 <= j < |g.preds[v]| ==> g.preds[v][j] in d.queued && ColourOf(d.nodes[g.preds[v][j]]) == Green
  }

  ghost predicate HasRedParent(g: Graph, d: Dag, v: Node)
    requires Fits(g, d.nodes) && v < |d.nodes|
  {
    exists j :: 0 <= j < |g.preds[v]| && ColourOf(d.nodes[g.preds[v][j]]) == Red
  }

  ghost predicate Accounted(d: Dag, v: Node)
    requires v < |d.nodes|
  {
    match ColourOf(d.nodes[v])
    case White => v !in d.queued + d.felled + d.killed
    case Red => v in d.queued + d.felled + d.killed
    case _ => v in d.queued
  }

  lemma PassKeepsInv(g: Graph, d: Dag, e: Dag)
    requires Fits(g, d.nodes) && Inv(g, d) && d.scheduled && PassLeads(g, d, e)
    ensures Inv(g, e)
  {
    forall v: Node | v < |d.nodes|
      ensures ColourOf(d.nodes[v]) in {Green, Red} ==> ColourOf(e.nodes[v]) == ColourOf(d.nodes[v])
      ensures MustFall(g, d.nodes, v) ==> ColourOf(e.nodes[v]) == Red && HasRedParent(g, e, v)
      ensures Accounted(e, v)
    {
      assert Accounted(d, v);
      if MustFall(g, d.nodes, v) {
        var j :| 0 <= j < |g.preds[v]| &&
          (ColourOf(d.nodes[g.preds[v][j]]) == Red || (g.preds[v][j] < v && MustFall(g, d.nodes, g.preds[v][j])));
        assert ColourOf(e.nodes[g.preds[v][j]]) == Red;
      }
    }
    forall v <- e.queued ensures ParentsDone(g, e, v) {
      forall j | 0 <= j < |g.preds[v]|
        ensures g.preds[v][j] in e.queued && ColourOf(e.nodes[g.preds[v][j]]) == Green
      {
        assert Accounted(d, g.preds[v][j]);
      }
    }
    forall v <- e.felled ensures v !in e.queued && HasRedParent(g, e, v) {
      assert Accounted(d, v);
      if v in d.felled {
        var j :| 0 <= j < |g.preds[v]| && ColourOf(d.nodes[g.preds[v][j]]) == Red;
        assert ColourOf(e.nodes[g.preds[v][j]]) == Red;
      }
    }
    if Complete(d.nodes) {
      assert e.nodes == d.nodes;
    }
  }

  lemma ChangeKeepsInv(g: Graph, d: Dag, a: Action, e: Dag)
    requires Fits(g, d.nodes) && Inv(g, d) && a.Change? && Step(g, d, a, e)
    ensures Fits(g, e.nodes) && Inv(g, e)
  {
    assert Accounted(d, a.v);
    forall v: Node | v < |d.nodes| ensures Accounted(e, v) {
      assert Accounted(d, v);
    }
    forall v <- e.queued ensures ParentsDone(g, e, v) {
      assert ParentsDone(g, d, v);
    }
    forall v <- e.felled ensures HasRedParent(g, e, v) {
      var j :| 0 <= j < |g.preds[v]| && ColourOf(d.nodes[g.preds[v][j]]) == Red;
      assert ColourOf(e.nodes[g.preds[v][j]]) == Red;
    }
  }

  lemma {:induction false} RunKeepsInv(g: Graph, acts: seq<Action>, ds: seq<Dag>, i: nat)
    requires IsRun(g, acts, ds) && i < |ds|
    ensures Inv(g, ds[i])
  {
    if i > 0 {
      RunKeepsInv(g, acts, ds, i - 1);
      if acts[i - 1].Pass? {
        PassKeepsInv(g, ds[i - 1], ds[i]);
      } else {
        ChangeKeepsInv(g, ds[i - 1], acts[i - 1], ds[i]);
      }
    }
  }

  // ------------------------------------------------------------------- ancestors are done

  lemma {:induction false} AncestorsGreen(g: Graph, d: Dag, u: Node, v: Node, path: seq<Node>)
    requires Fits(g, d.nodes) && Inv(g, d) && v in d.queued && g.Ancestor(u, v, path)
    ensures u < |d.nodes| && u in d.queued && ColourOf(d.nodes[u]) == Green
    decreases |path|
  {
    if path != [] {
      AncestorsGreen(g, d, path[0], v, []);
      AncestorsGreen(g, d, u, path[0], path[1..]);
    }
  }

  /** At every moment of every run, every ancestor of a node that was ever queued, however remote,
      has itself been queued and is DONE with a last done event OK. */
  lemma QueuedAncestorsDone(g: Graph, acts: seq<Action>, ds: seq<Dag>, i: nat, u: Node, v: Node, path: seq<Node>)
    requires IsRun(g, acts, ds) && i < |ds|
    requires v in ds[i].queued && g.Ancestor(u, v, path)
    ensures u < |ds[i].nodes| && u in ds[i].queued
    ensures ds[i].nodes[u].status == Done && LastDone(ds[i].nodes[u].events) == Some(DoneOk)
  {
    RunKeepsInv(g, acts, ds, i);
    AncestorsGreen(g, ds[i], u, v, path);
  }

  /** A node below an aborted or cancelled one is never queued, and at the verdict it is aborted
      or cancelled too. */
  lemma FailurePropagates(g: Graph, acts: seq<Action>, ds: seq<Dag>, i: nat, u: Node, v: Node, path: seq<Node>)
    requires IsRun(g, acts, ds) && i < |ds| && g.Ancestor(u, v, path)
    requires u < |ds[i].nodes| && EndedBadly(ds[i].nodes[u])
    ensures v !in ds[i].queued
    ensures ds[i].verdict != Open ==> v < |ds[i].nodes| && EndedBadly(ds[i].nodes[v])
  {
    RunKeepsInv(g, acts, ds, i);
    if v in ds[i].queued {
      AncestorsGreen(g, ds[i], u, v, path);
    }
    assert v < |g.preds|;
    assert Accounted(ds[i], v);
  }

  lemma {:induction false} FindRootCause(g: Graph, rank: seq<nat>, d: Dag, v: Node) returns (u: Node, path: seq<Node>)
    requires Fits(g, d.nodes) && Inv(g, d) && g.IsRank(rank) && v in d.felled
    ensures g.Ancestor(u, v, path) && u < |d.nodes| && ColourOf(d.nodes[u]) == Red && u in d.queued + d.killed
    decreases rank[v]
  {
    var j :| 0 <= j < |g.preds[v]| && ColourOf(d.nodes[g.preds[v][j]]) == Red;
    var p := g.preds[v][j];
    assert Accounted(d, p);
    if p in d.felled {
      u, path := FindRootCause(g, rank, d, p);
      path := [p] + path;
      assert path[1..] == path[1..] && path[0] == p;
      var rest := path[1..];
      assert g.Ancestor(u, p, rest);
    } else {
      u, path := p, [];
    }
  }

  /** The engine aborts a node only below one that failed of its own: that was queued and then
      aborted or cancelled, or was cancelled or aborted from outside. */
  lemma FelledHasRootCause(g: Graph, acts: seq<Action>, ds: seq<Dag>, i: nat, v: Node)
    requires IsRun(g, acts, ds) && g.Acyclic() && i < |ds| && v in ds[i].felled
    ensures exists u: Node, path ::
              g.Ancestor(u, v, path) && u < |ds[i].nodes| && EndedBadly(ds[i].nodes[u])
              && u in ds[i].queued + ds[i].killed
  {
    RunKeepsInv(g, acts, ds, i);
    var rank :| g.IsRank(rank);
    var u, path := FindRootCause(g, rank, ds[i], v);
  }

  // ----------------------------------------------------------------------------- the verdict

  /** At a verdict every node is DONE with OK, aborted or cancelled, success means that all are DONE
      with OK, and a node that was never queued was cancelled or aborted from outside or has a
      parent that is aborted or cancelled. */
  lemma VerdictMeans(g: Graph, acts: seq<Action>, ds: seq<Dag>, i: nat, v: Node)
    requires IsRun(g, acts, ds) && i < |ds| && ds[i].verdict != Open && v < |ds[i].nodes|
    ensures EndedWell(ds[i].nodes[v]) || EndedBadly(ds[i].nodes[v])
    ensures ds[i].verdict == Succeeded <==> forall u :: 0 <= u < |ds[i].nodes| ==> EndedWell(ds[i].nodes[u])
    ensures v !in ds[i].queued ==>
              EndedBadly(ds[i].nodes[v])
              && (v in ds[i].killed || exists p <- g.preds[v] :: p < |ds[i].nodes| && EndedBadly(ds[i].nodes[p]))
    ensures ds[i].verdict == Succeeded ==> ds[i].felled == {} && ds[i].killed == {}
  {
    RunKeepsInv(g, acts, ds, i);
    assert Accounted(ds[i], v);
    SuccessInStatuses(ds[i].nodes);
  }

  lemma SuccessInStatuses(nodes: seq<NodeState>)
    ensures AllGreen(nodes) <==> forall v :: 0 <= v < |nodes| ==> EndedWell(nodes[v])
  {
  }

  lemma NoStepAfterVerdict(g: Graph, d: Dag, a: Action, e: Dag)
    requires Fits(g, d.nodes) && Inv(g, d) && d.verdict != Open
    ensures !Step(g, d, a, e)
  {
    assert Complete(d.nodes);
  }

  /** A pass that ends with a verdict schedules no other one, and the nodes have all ended: so
      nothing happens any more after a verdict. */
  lemma VerdictIsLast(g: Graph, acts: seq<Action>, ds: seq<Dag>, i: nat)
    requires IsRun(g, acts, ds) && i < |ds| && ds[i].verdict != Open
    ensures i == |acts| && !ds[i].scheduled
  {
    RunKeepsInv(g, acts, ds, i);
    if i < |acts| {
      NoStepAfterVerdict(g, ds[i], acts[i], ds[i + 1]);
    }
  }

  // -------------------------------------------------------------------- progress and its end

  ghost predicate SomeNode(nodes: seq<NodeState>, c: Colour) {
    exists v :: 0 <= v < |nodes| && ColourOf(nodes[v]) == c
  }

  lemma {:induction false} FindMover(g: Graph, rank: seq<nat>, nodes: seq<NodeState>, v: Node) returns (w: Node)
    requires Fits(g, nodes) && g.IsRank(rank) && v < |nodes|
    requires ColourOf(nodes[v]) == White && !SomeNode(nodes, Gray)
    ensures w < |nodes| && (CanStart(g, nodes, w) || MustFall(g, nodes, w))
    decreases rank[v]
  {
    if j :| 0 <= j < |g.preds[v]| && ColourOf(nodes[g.preds[v][j]]) == White {
      w := FindMover(g, rank, nodes, g.preds[v][j]);
    } else {
      w := v;
    }
  }

  /** Whatever the order of the vertices, a pass over an acyclic graph in which nothing is in
      flight queues or aborts a node, if any has not been started. */
  lemma PassMakesProgress(g: Graph, d: Dag, e: Dag)
    requires Fits(g, d.nodes) && g.Acyclic() && PassLeads(g, d, e)
    requires exists v :: 0 <= v < |d.nodes| && d.nodes[v].status == Submitted
    requires forall v :: 0 <= v < |d.nodes| ==> !InFlight(d.nodes[v])
    ensures exists w: Node :: w < |d.nodes| && d.nodes[w].status == Submitted && e.nodes[w].status != Submitted
              && w in e.queued + e.felled
  {
    var rank :| g.IsRank(rank);
    var v: Node :| v < |d.nodes| && d.nodes[v].status == Submitted;
    var w := FindMover(g, rank, d.nodes, v);
    assert e.nodes[w] == StatusAfter(g, d.nodes, w);
  }

  function Cost(c: Colour): nat {
    match c
    case White => 2
    case Gray => 1
    case _ => 0
  }

  /** Twice the nodes not started plus the nodes in flight, among the first `k`. */
  function Weight(nodes: seq<NodeState>, k: nat): nat
    requires k <= |nodes|
  {
    if k == 0 then 0 else Weight(nodes, k - 1) + Cost(ColourOf(nodes[k - 1]))
  }

  lemma {:induction false} WeightFalls(a: seq<NodeState>, b: seq<NodeState>, k: nat)
    requires |a| == |b| && k <= |a|
    requires forall v :: 0 <= v < k ==> Cost(ColourOf(b[v])) <= Cost(ColourOf(a[v]))
    ensures Weight(b, k) <= Weight(a, k)
    ensures (exists v :: 0 <= v < k && Cost(ColourOf(b[v])) < Cost(ColourOf(a[v]))) ==> Weight(b, k) < Weight(a, k)
  {
    if k > 0 {
      WeightFalls(a, b, k - 1);
    }
  }

  lemma {:induction false} WeightAtMost(nodes: seq<NodeState>, k: nat)
    requires k <= |nodes|
    ensures Weight(nodes, k) <= 2 * k
  {
    if k > 0 {
      WeightAtMost(nodes, k - 1);
    }
  }

  function Total(d: Dag): nat {
    Weight(d.nodes, |d.nodes|)
  }

  lemma PassLowersWeight(g: Graph, d: Dag, e: Dag)
    requires Fits(g, d.nodes) && g.Acyclic() && PassLeads(g, d, e)
    ensures Total(e) <= Total(d)
    ensures SomeNode(d.nodes, White) && !SomeNode(d.nodes, Gray) ==> Total(e) < Total(d)
  {
    WeightFalls(d.nodes, e.nodes, |d.nodes|);
    if SomeNode(d.nodes, White) && !SomeNode(d.nodes, Gray) {
      assert forall v :: 0 <= v < |d.nodes| ==> !InFlight(d.nodes[v]);
      PassMakesProgress(g, d, e);
    }
  }

  /** A change by which a node in flight ends, well or badly. */
  ghost predicate Completes(d: Dag, a: Action) {
    a.Change? && a.v < |d.nodes| && InFlight(d.nodes[a.v]) && (EndedWell(a.now) || EndedBadly(a.now))
  }

  lemma ChangeLowersWeight(g: Graph, d: Dag, a: Action, e: Dag)
    requires Fits(g, d.nodes) && a.Change? && Step(g, d, a, e)
    ensures Total(e) <= Total(d)
    ensures Completes(d, a) ==> Total(e) < Total(d)
  {
    WeightFalls(d.nodes, e.nodes, |d.nodes|);
    assert Completes(d, a) ==> Cost(ColourOf(e.nodes[a.v])) < Cost(ColourOf(d.nodes[a.v]));
  }

  function Passes(acts: seq<Action>): nat {
    if acts == [] then 0 else Passes(acts[..|acts| - 1]) + if acts[|acts| - 1].Pass? then 1 else 0
  }

  /** Passes among the first `k` actions that find a node in flight. */
  ghost function Waits(acts: seq<Action>, ds: seq<Dag>, k: nat): nat
    requires k <= |acts| < |ds|
  {
    if k == 0 then 0
    else Waits(acts, ds, k - 1) + if acts[k - 1].Pass? && SomeNode(ds[k - 1].nodes, Gray) then 1 else 0
  }

  ghost function Completions(acts: seq<Action>, ds: seq<Dag>, k: nat): nat
    requires k <= |acts| < |ds|
  {
    if k == 0 then 0
    else Completions(acts, ds, k - 1) + if Completes(ds[k - 1], acts[k - 1]) then 1 else 0
  }

  lemma {:induction false} WorkIsBounded(g: Graph, acts: seq<Action>, ds: seq<Dag>, k: nat)
    requires IsRun(g, acts, ds) && g.Acyclic() && k <= |acts| && ds[k].verdict == Open
    ensures Total(ds[k]) + Passes(acts[..k]) + Completions(acts, ds, k) <= 2 * g.Size() + Waits(acts, ds, k)
    ensures Completions(acts, ds, k) <= 2 * g.Size() - Total(ds[k])
  {
    if k == 0 {
      WeightAtMost(ds[0].nodes, |ds[0].nodes|);
    } else {
      var d, a, e := ds[k - 1], acts[k - 1], ds[k];
      assert Step(g, d, a, e);
      assert acts[..k][..k - 1] == acts[..k - 1] && acts[..k][k - 1] == a;
      if d.verdict != Open {
        VerdictIsLast(g, acts, ds, k - 1);
      }
      WorkIsBounded(g, acts, ds, k - 1);
      if a.Pass? {
        PassLowersWeight(g, d, e);
        OpenMeansUnfinished(d.nodes);
      } else {
        ChangeLowersWeight(g, d, a, e);
      }
    }
  }

  lemma OpenMeansUnfinished(nodes: seq<NodeState>)
    ensures !Complete(nodes) <==> SomeNode(nodes, White) || SomeNode(nodes, Gray)
  {
    if !Complete(nodes) {
      var v :| 0 <= v < |nodes| && ColourOf(nodes[v]) !in {Green, Red};
      assert ColourOf(nodes[v]) == White || ColourOf(nodes[v]) == Gray;
    }
  }

  /** When between two nodes that end at most `p` passes find something in flight, a run over an
      acyclic graph of n nodes has its verdict after 2n + p(2n + 1) passes. */
  lemma VerdictWithin(g: Graph, acts: seq<Action>, ds: seq<Dag>, p: nat)
    requires IsRun(g, acts, ds) && g.Acyclic()
    requires Waits(acts, ds, |acts|) <= p * (Completions(acts, ds, |acts|) + 1)
    requires Passes(acts) > 2 * g.Size() + p * (2 * g.Size() + 1)
    ensures ds[|acts|].verdict != Open
  {
    assert acts[..|acts|] == acts;
    if ds[|acts|].verdict == Open {
      WorkIsBounded(g, acts, ds, |acts|);
      MulMonotone(Completions(acts, ds, |acts|) + 1, 2 * g.Size() + 1, p);
    }
  }

  lemma MulMonotone(a: nat, b: nat, c: nat)
    requires a <= b
    ensures c * a <= c * b
  {
  }

  // -------------------------------------------------------------------------- runs without end

  /** A run for ever: once there is a verdict it stays as it is. */
  ghost predicate IsEndless(g: Graph, acts: nat -> Action, ds: nat -> Dag) {
    && Initial(g, ds(0))
    && (forall i: nat :: MovesAt(g, acts, ds, i))
  }

  ghost predicate MovesAt(g: Graph, acts: nat -> Action, ds: nat -> Dag, i: nat) {
    Moves(g, ds(i), acts(i), ds(i + 1))
  }

  ghost predicate Moves(g: Graph, d: Dag, a: Action, e: Dag) {
    && Fits(g, d.nodes) && Fits(g, e.nodes)
    && (Step(g, d, a, e) || (d.verdict != Open && e == d))
  }

  /** There is always another pass, up to the verdict, and no node stays in flight for ever. */
  ghost predicate IsFair(acts: nat -> Action, ds: nat -> Dag) {
    && (forall i: nat :: PassComes(acts, ds, i))
    && (forall i: nat, v: Node :: GrayEnds(ds, i, v))
  }

  ghost predicate PassComes(acts: nat -> Action, ds: nat -> Dag, i: nat) {
    exists j: nat :: i <= j && (acts(j).Pass? || ds(j).verdict != Open)
  }

  ghost predicate IsGray(d: Dag, v: Node) {
    v < |d.nodes| && InFlight(d.nodes[v])
  }

  ghost predicate GrayEnds(ds: nat -> Dag, i: nat, v: Node) {
    IsGray(ds(i), v) ==> exists j: nat :: i <= j && !IsGray(ds(j), v)
  }

  lemma MoveLowersWeight(g: Graph, d: Dag, a: Action, e: Dag, v: Node)
    requires g.Acyclic() && Moves(g, d, a, e)
    ensures |e.nodes| == |d.nodes| && Total(e) <= Total(d)
    ensures IsGray(d, v) && !IsGray(e, v) ==> Total(e) < Total(d)
  {
    if Step(g, d, a, e) {
      if a.Pass? {
        PassLowersWeight(g, d, e);
      } else {
        ChangeLowersWeight(g, d, a, e);
      }
    }
  }

  lemma {:induction false} WeightOverTime(g: Graph, acts: nat -> Action, ds: nat -> Dag, i: nat, j: nat, v: Node)
    requires IsEndless(g, acts, ds) && g.Acyclic() && i <= j
    ensures Total(ds(j)) <= Total(ds(i))
    ensures IsGray(ds(i), v) && !IsGray(ds(j), v) ==> Total(ds(j)) < Total(ds(i))
    decreases j
  {
    if i < j {
      WeightOverTime(g, acts, ds, i, j - 1, v);
      assert MovesAt(g, acts, ds, j - 1);
      MoveLowersWeight(g, ds(j - 1), acts(j - 1), ds(j), v);
    }
  }

  lemma PassSettles(g: Graph, d: Dag, a: Action, e: Dag)
    requires g.Acyclic() && Moves(g, d, a, e) && a.Pass? && d.verdict == Open && !SomeNode(d.nodes, Gray)
    ensures e.verdict != Open || Total(e) < Total(d)
  {
    if SomeNode(d.nodes, White) {
      PassLowersWeight(g, d, e);
    } else {
      OpenMeansUnfinished(d.nodes);
    }
  }

  lemma FindsGray(d: Dag) returns (v: Node)
    requires SomeNode(d.nodes, Gray)
    ensures IsGray(d, v)
  {
    v :| v < |d.nodes| && ColourOf(d.nodes[v]) == Gray;
  }

  lemma LessAfterPass(g: Graph, acts: nat -> Action, ds: nat -> Dag, j: nat) returns (m: nat)
    requires IsEndless(g, acts, ds) && IsFair(acts, ds) && g.Acyclic()
    requires acts(j).Pass? && ds(j).verdict == Open
    ensures ds(m).verdict != Open || Total(ds(m)) < Total(ds(j))
  {
    if SomeNode(ds(j).nodes, Gray) {
      var v := FindsGray(ds(j));
      assert GrayEnds(ds, j, v);
      m :| j <= m && !IsGray(ds(m), v);
      WeightOverTime(g, acts, ds, j, m, v);
    } else {
      m := j + 1;
      assert MovesAt(g, acts, ds, j);
      PassSettles(g, ds(j), acts(j), ds(m));
    }
  }

  /** Sooner or later there is a verdict or less work left. */
  lemma LessLater(g: Graph, acts: nat -> Action, ds: nat -> Dag, i: nat) returns (m: nat)
    requires IsEndless(g, acts, ds) && IsFair(acts, ds) && g.Acyclic()
    ensures ds(m).verdict != Open || Total(ds(m)) < Total(ds(i))
  {
    assert PassComes(acts, ds, i);
    m :| i <= m && (acts(m).Pass? || ds(m).verdict != Open);
    if ds(m).verdict == Open {
      WeightOverTime(g, acts, ds, i, m, 0);
      m := LessAfterPass(g, acts, ds, m);
    }
  }

  lemma {:induction false} VerdictAfter(g: Graph, acts: nat -> Action, ds: nat -> Dag, i: nat) returns (k: nat)
    requires IsEndless(g, acts, ds) && IsFair(acts, ds) && g.Acyclic()
    ensures ds(k).verdict != Open
    decreases Total(ds(i))
  {
    k := LessLater(g, acts, ds, i);
    if ds(k).verdict == Open {
      k := VerdictAfter(g, acts, ds, k);
    }
  }

  /** Every fair run over an acyclic graph reaches its verdict. */
  lemma FairRunsReachVerdict(g: Graph, acts: nat -> Action, ds: nat -> Dag)
    requires IsEndless(g, acts, ds) && IsFair(acts, ds) && g.Acyclic()
    ensures exists k: nat :: ds(k).verdict != Open
  {
    var k := VerdictAfter(g, acts, ds, 0);
  }
}
