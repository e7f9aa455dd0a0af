/** Matchmaking for the nodes of a collection (bulkmm_utils.cpp): nodes with equal significant
    attributes share one match result, and every node is then scheduled or left pending. */
module BulkMatch {
  import opened Wrappers
  import opened Distribution
  import opened Ranking

  /** A job description: its list of significant attributes, if it has one, and the unparsed
      expressions of its attributes. */
  datatype Ad = Ad(significant: Option<seq<string>>, attributes: map<string, string>)

  /** The description of the collection and the one inside it that all nodes share. */
  datatype DagAd = DagAd(top: Ad, nodes: Ad)

  datatype Node = Node(name: string, ad: Ad)

  type Key = seq<(string, string)>

  /** Both lookups try the job, then the shared part, then the collection. */
  function LookupSignificant(job: Ad, dag: DagAd): seq<string> {
    if job.significant.Some? then job.significant.value
    else if dag.nodes.significant.Some? then dag.nodes.significant.value
    else dag.top.significant.GetOr([])
  }

  function Lookup(job: Ad, dag: DagAd, attribute: string): Option<string> {
    if attribute in job.attributes then Some(job.attributes[attribute])
    else if attribute in dag.nodes.attributes then Some(dag.nodes.attributes[attribute])
    else if attribute in dag.top.attributes then Some(dag.top.attributes[attribute])
    else None
  }

  /** The significant attributes that have a value, with it, among the first `k` listed. */
  function Pairs(job: Ad, dag: DagAd, names: seq<string>, k: nat): Key
    requires k <= |names|
  {
    if k == 0 then []
    else
      var v := Lookup(job, dag, names[k - 1]);
      Pairs(job, dag, names, k - 1) + if v.Some? then [(names[k - 1], v.value)] else []
  }

  /** The values that count for a node's cluster. */
  function Significance(n: Node, dag: DagAd): Key {
    var names := LookupSignificant(n.ad, dag);
    Pairs(n.ad, dag, names, |names|)
  }

  function KeyOf(n: Node, dag: DagAd): Key {
    if Significance(n, dag) == [] then [(n.name, "")] else Significance(n, dag)
  }

  /** The list in force is the first there is of the job's, the shared one and the collection's. */
  ghost predicate Listed(job: Ad, dag: DagAd, names: seq<string>) {
    || job.significant == Some(names)
    || (job.significant.None? && dag.nodes.significant == Some(names))
    || (job.significant.None? && dag.nodes.significant.None? && dag.top.significant == Some(names))
    || (job.significant.None? && dag.nodes.significant.None? && dag.top.significant.None? && names == [])
  }

  lemma ListedExactly(job: Ad, dag: DagAd, names: seq<string>)
    ensures Listed(job, dag, names) <==> names == LookupSignificant(job, dag)
  {
  }

  /** The first to define the attribute among the job, the shared part and the collection gives it
      this expression. */
  ghost predicate Gives(job: Ad, dag: DagAd, a: string, expr: string) {
    if a in job.attributes then job.attributes[a] == expr
    else if a in dag.nodes.attributes then dag.nodes.attributes[a] == expr
    else a in dag.top.attributes && dag.top.attributes[a] == expr
  }

  lemma {:induction false} PairsHold(job: Ad, dag: DagAd, names: seq<string>, k: nat, a: string, expr: string)
    requires k <= |names|
    ensures (a, expr) in Pairs(job, dag, names, k) <==> a in names[..k] && Gives(job, dag, a, expr)
  {
    if k > 0 {
      PairsHold(job, dag, names, k - 1, a, expr);
      assert names[..k] == names[..k - 1] + [names[k - 1]];
    }
  }

  /** The key holds every listed attribute with the expression it is given, and nothing else; a
      node with none of them has its name for a key. */
  ghost predicate IsKey(n: Node, dag: DagAd, names: seq<string>, key: Key) {
    if exists a <- names, expr :: Gives(n.ad, dag, a, expr) then
      forall a, expr :: (a, expr) in key <==> a in names && Gives(n.ad, dag, a, expr)
    else key == [(n.name, "")]
  }

  lemma KeyIs(n: Node, dag: DagAd, names: seq<string>)
    requires Listed(n.ad, dag, names)
    ensures IsKey(n, dag, names, KeyOf(n, dag))
  {
    ListedExactly(n.ad, dag, names);
    var pairs := Significance(n, dag);
    assert names[..|names|] == names;
    forall a, expr ensures (a, expr) in pairs <==> a in names && Gives(n.ad, dag, a, expr) {
      PairsHold(n.ad, dag, names, |names|, a, expr);
    }
    if pairs != [] {
      var (a, expr) := pairs[0];
      assert (a, expr) in pairs;
    }
  }

  method MakeKey(n: Node, dag: DagAd) returns (key: Key)
    ensures key == KeyOf(n, dag)
    ensures forall list :: Listed(n.ad, dag, list) ==> IsKey(n, dag, list, key)
  {
    forall list | Listed(n.ad, dag, list) ensures IsKey(n, dag, list, KeyOf(n, dag)) {
      KeyIs(n, dag, list);
    }
    var names := LookupSignificant(n.ad, dag);
    key := [];
    for i := 0 to |names|
      invariant key == Pairs(n.ad, dag, names, i)
    {
      var value := Lookup(n.ad, dag, names[i]);
      if value.Some? {
        key := key + [(names[i], value.value)];
      }
    }
    if key == [] {
      key := [(n.name, "")];
    }
  }

  /** Unparsed expressions are never empty. */
  ghost predicate Unparsed(ad: Ad) {
    forall a <- ad.attributes :: ad.attributes[a] != ""
  }

  ghost predicate GoodInput(nodes: seq<Node>, dag: DagAd) {
    && DistinctNames(nodes)
    && Unparsed(dag.top) && Unparsed(dag.nodes)
    && (forall i :: 0 <= i < |nodes| ==> Unparsed(nodes[i].ad))
  }

  lemma {:induction false} PairsHaveValues(job: Ad, dag: DagAd, names: seq<string>, k: nat)
    requires k <= |names| && Unparsed(job) && Unparsed(dag.top) && Unparsed(dag.nodes)
    ensures forall p <- Pairs(job, dag, names, k) :: p.1 != ""
  {
    if k > 0 {
      PairsHaveValues(job, dag, names, k - 1);
    }
  }

  /** Two different nodes get the same key exactly when they have the same significant values,
      and at least one such value: a node without any is alone. */
  lemma SameKeyExactly(nodes: seq<Node>, dag: DagAd, i: nat, j: nat)
    requires GoodInput(nodes, dag) && i < j < |nodes|
    ensures KeyOf(nodes[i], dag) == KeyOf(nodes[j], dag) <==>
            Significance(nodes[i], dag) == Significance(nodes[j], dag) != []
  {
    var ni, nj := LookupSignificant(nodes[i].ad, dag), LookupSignificant(nodes[j].ad, dag);
    PairsHaveValues(nodes[i].ad, dag, ni, |ni|);
    PairsHaveValues(nodes[j].ad, dag, nj, |nj|);
    assert KeyOf(nodes[i], dag)[0] in KeyOf(nodes[i], dag);
    assert KeyOf(nodes[j], dag)[0] in KeyOf(nodes[j], dag);
  }

  /** Two nodes that give an attribute listed for both different expressions of their own never
      share a key. */
  lemma DifferentExpressionsDifferentKeys(m: Node, n: Node, dag: DagAd, ms: seq<string>, ns: seq<string>, a: string)
    requires Listed(m.ad, dag, ms) && Listed(n.ad, dag, ns) && a in ms && a in ns
    requires a in m.ad.attributes && a in n.ad.attributes && m.ad.attributes[a] != n.ad.attributes[a]
    ensures KeyOf(m, dag) != KeyOf(n, dag)
  {
    KeyIs(m, dag, ms);
    KeyIs(n, dag, ns);
    assert Gives(m.ad, dag, a, m.ad.attributes[a]) && Gives(n.ad, dag, a, n.ad.attributes[a]);
    assert (a, m.ad.attributes[a]) in KeyOf(m, dag);
  }

  ghost predicate GivenAlike(m: Ad, n: Ad, dag: DagAd, a: string) {
    forall expr :: Gives(m, dag, a, expr) <==> Gives(n, dag, a, expr)
  }

  /** Two nodes with one list share a key if and only if every attribute listed is given alike, by
      the same expression or not at all, and at least one of them is given. */
  lemma SharedKeyExactly(nodes: seq<Node>, dag: DagAd, i: nat, j: nat, names: seq<string>)
    requires GoodInput(nodes, dag) && i < j < |nodes|
    requires Listed(nodes[i].ad, dag, names) && Listed(nodes[j].ad, dag, names)
    ensures KeyOf(nodes[i], dag) == KeyOf(nodes[j], dag) <==>
              && (forall a <- names :: GivenAlike(nodes[i].ad, nodes[j].ad, dag, a))
              && (exists a <- names, expr :: Gives(nodes[i].ad, dag, a, expr))
  {
    var m, n := nodes[i], nodes[j];
    ListedExactly(m.ad, dag, names);
    ListedExactly(n.ad, dag, names);
    SameKeyExactly(nodes, dag, i, j);
    KeyIs(m, dag, names);
    KeyIs(n, dag, names);
    if forall a <- names :: GivenAlike(m.ad, n.ad, dag, a) {
      SamePairs(m.ad, n.ad, dag, names, |names|);
    }
    if KeyOf(m, dag) == KeyOf(n, dag) {
      forall a, expr | a in names ensures Gives(m.ad, dag, a, expr) <==> Gives(n.ad, dag, a, expr) {
        SameValues(m, n, dag, names, a, expr);
      }
    }
  }

  lemma SameValues(m: Node, n: Node, dag: DagAd, names: seq<string>, a: string, expr: string)
    requires Significance(m, dag) == Significance(n, dag) && a in names
    requires names == LookupSignificant(m.ad, dag) == LookupSignificant(n.ad, dag)
    ensures Gives(m.ad, dag, a, expr) <==> Gives(n.ad, dag, a, expr)
  {
    assert names[..|names|] == names;
    PairsHold(m.ad, dag, names, |names|, a, expr);
    PairsHold(n.ad, dag, names, |names|, a, expr);
  }

  lemma {:induction false} SamePairs(m: Ad, n: Ad, dag: DagAd, names: seq<string>, k: nat)
    requires k <= |names| && forall a <- names :: GivenAlike(m, n, dag, a)
    ensures Pairs(m, dag, names, k) == Pairs(n, dag, names, k)
  {
    if k > 0 {
      SamePairs(m, n, dag, names, k - 1);
      SameLookup(m, n, dag, names[k - 1]);
    }
  }

  lemma SameLookup(m: Ad, n: Ad, dag: DagAd, a: string)
    requires GivenAlike(m, n, dag, a)
    ensures Lookup(m, dag, a) == Lookup(n, dag, a)
  {
    var x, y := Lookup(m, dag, a), Lookup(n, dag, a);
    if x.Some? {
      assert Gives(m, dag, a, x.value);
    }
    if y.Some? {
      assert Gives(n, dag, a, y.value);
    }
  }

  // ------------------------------------------------------------------------------ clustering

  datatype Cluster = Cluster(template: Ad, names: seq<string>)

  function Keys(nodes: seq<Node>, dag: DagAd): seq<Key> {
    seq(|nodes|, i requires 0 <= i < |nodes| => KeyOf(nodes[i], dag))
  }

  /** The names of the nodes with this key among the first `k`, in order. */
  function NamesWith(nodes: seq<Node>, keys: seq<Key>, key: Key, k: nat): seq<string>
    requires k <= |nodes| == |keys|
  {
    if k == 0 then []
    else NamesWith(nodes, keys, key, k - 1) + if keys[k - 1] == key then [nodes[k - 1].name] else []
  }

  /** The description of the first node with this key. */
  function FirstAd(nodes: seq<Node>, keys: seq<Key>, key: Key, k: nat): Ad
    requires k <= |nodes| == |keys| && key in keys[..k]
  {
    assert keys[..k] == keys[..k - 1] + [keys[k - 1]];
    if key in keys[..k - 1] then FirstAd(nodes, keys, key, k - 1) else nodes[k - 1].ad
  }

  /** The nodes with this key among the first `k`, with the description they are matched by. */
  function ClusterOf(nodes: seq<Node>, keys: seq<Key>, key: Key, k: nat): Cluster
    requires k <= |nodes| == |keys| && key in keys[..k]
  {
    Cluster(FirstAd(nodes, keys, key, k), NamesWith(nodes, keys, key, k))
  }

  /** The clusters of the first `k` nodes: one for every key that occurs, and no other. */
  ghost predicate Clustered(nodes: seq<Node>, keys: seq<Key>, k: nat, clusters: map<Key, Cluster>)
    requires k <= |nodes| == |keys|
  {
    && (forall key :: key in clusters <==> key in keys[..k])
    && (forall key <- clusters :: clusters[key] == ClusterOf(nodes, keys, key, k))
  }

  lemma {:induction false} NoNames(nodes: seq<Node>, keys: seq<Key>, key: Key, k: nat)
    requires k <= |nodes| == |keys| && key !in keys[..k]
    ensures NamesWith(nodes, keys, key, k) == []
  {
    if k > 0 {
      assert keys[..k] == keys[..k - 1] + [keys[k - 1]];
      NoNames(nodes, keys, key, k - 1);
    }
  }

  method AddToCluster(nodes: seq<Node>, ghost keys: seq<Key>, i: nat, key: Key, clusters0: map<Key, Cluster>)
      returns (clusters: map<Key, Cluster>)
    requires i < |nodes| == |keys| && keys[i] == key && Clustered(nodes, keys, i, clusters0)
    ensures Clustered(nodes, keys, i + 1, clusters)
  {
    assert keys[..i + 1] == keys[..i] + [key];
    clusters := clusters0;
    if key !in clusters {
      NoNames(nodes, keys, key, i);
      clusters := clusters[key := Cluster(nodes[i].ad, [])];
    }
    clusters := clusters[key := clusters[key].(names := clusters[key].names + [nodes[i].name])];
  }

  method ClusterNode(nodes: seq<Node>, dag: DagAd, i: nat, clusters0: map<Key, Cluster>)
      returns (clusters: map<Key, Cluster>)
    requires i < |nodes| && Clustered(nodes, Keys(nodes, dag), i, clusters0)
    ensures Clustered(nodes, Keys(nodes, dag), i + 1, clusters)
  {
    var key := MakeKey(nodes[i], dag);
    clusters := AddToCluster(nodes, Keys(nodes, dag), i, key, clusters0);
  }

  method Clusterize(nodes: seq<Node>, dag: DagAd) returns (clusters: map<Key, Cluster>)
    ensures Clustered(nodes, Keys(nodes, dag), |nodes|, clusters)
  {
    clusters := map[];
    for i := 0 to |nodes|
      invariant Clustered(nodes, Keys(nodes, dag), i, clusters)
    {
      clusters := ClusterNode(nodes, dag, i, clusters);
    }
  }

  ghost predicate DistinctNames(nodes: seq<Node>) {
    forall i, j :: 0 <= i < j < |nodes| ==> nodes[i].name != nodes[j].name
  }

  /** The description of a cluster is that of its first node. */
  lemma {:induction false} FirstAdIs(nodes: seq<Node>, keys: seq<Key>, key: Key, k: nat, i: nat)
    requires i < k <= |nodes| == |keys| && keys[i] == key && key !in keys[..i]
    ensures key in keys[..k] && FirstAd(nodes, keys, key, k) == nodes[i].ad
  {
    assert keys[..k][i] == key;
    if i < k - 1 {
      FirstAdIs(nodes, keys, key, k - 1, i);
    } else {
      assert keys[..k - 1] == keys[..i];
    }
  }

  /** Its names stand in the order of the nodes. */
  lemma {:induction false} NamesInOrder(nodes: seq<Node>, keys: seq<Key>, key: Key, k: nat, p: nat, q: nat)
      returns (i: nat, j: nat)
    requires k <= |nodes| == |keys| && p < q < |NamesWith(nodes, keys, key, k)|
    ensures i < j < k && keys[i] == key && keys[j] == key
    ensures nodes[i].name == NamesWith(nodes, keys, key, k)[p] && nodes[j].name == NamesWith(nodes, keys, key, k)[q]
  {
    if q < |NamesWith(nodes, keys, key, k - 1)| {
      i, j := NamesInOrder(nodes, keys, key, k - 1, p, q);
    } else {
      NamesAreNodes(nodes, keys, key, k - 1, p);
      i :| 0 <= i < k - 1 && keys[i] == key && nodes[i].name == NamesWith(nodes, keys, key, k - 1)[p];
      j := k - 1;
    }
  }

  /** How often the name of node `i` is among those of the first `k` nodes with a key. */
  lemma {:induction false} NameCount(nodes: seq<Node>, keys: seq<Key>, key: Key, k: nat, i: nat)
    requires DistinctNames(nodes) && k <= |nodes| == |keys| && i < |nodes|
    ensures multiset(NamesWith(nodes, keys, key, k))[nodes[i].name] == if i < k && keys[i] == key then 1 else 0
  {
    if k > 0 {
      NameCount(nodes, keys, key, k - 1, i);
      NextName(NamesWith(nodes, keys, key, k - 1), nodes[k - 1].name, nodes[i].name, keys[k - 1] == key);
      SameNode(nodes, k - 1, i);
    }
  }

  lemma SameNode(nodes: seq<Node>, i: nat, j: nat)
    requires DistinctNames(nodes) && i < |nodes| && j < |nodes|
    ensures nodes[i].name == nodes[j].name <==> i == j
  {
  }

  lemma NextName(names: seq<string>, name: string, other: string, added: bool)
    ensures multiset(names + if added then [name] else [])[other] ==
            multiset(names)[other] + if added && name == other then 1 else 0
  {
    assert names + [] == names;
  }

  // ------------------------------------------------------------------------------ scheduling

  /** What the matchmaker answers for a cluster. */
  datatype Answer = Answer(matches: seq<Match>, fuzzy: bool, factor: real)

  /** These matches, with exactly those of maximum rank in front. */
  ghost predicate TopFirst(order: seq<Match>, n: nat, ms: seq<Match>) {
    && multiset(order) == multiset(ms) && n <= |order|
    && forall i :: 0 <= i < |order| ==> (i < n <==> IsTop(order[i], ms))
  }

  /** The match on whose weight the share `u` of the total falls. */
  ghost predicate Drawn(order: seq<Match>, w: seq<real>, u: real, m: Match)
    requires |w| <= |order|
  {
    exists i: nat :: FoundByBound(w, Times(u, Prefix(w, |w|)), i) && order[i] == m
  }

  /** What may be chosen for a node, given its random number. */
  ghost predicate GoodChoice(answer: Answer, squash: real -> real, u: real, m: Match)
    requires forall x: real :: squash(x) > 0.0
  {
    m in answer.matches &&
    if answer.fuzzy then Drawn(answer.matches, Weights(answer.matches, answer.factor, squash), u, m)
    else IsTop(m, answer.matches)
  }

  lemma {:induction false} SumOfOnes(w: seq<real>, k: nat)
    requires k <= |w| && forall i :: 0 <= i < |w| ==> w[i] == 1.0
    ensures Prefix(w, k) == k as real
  {
    if k > 0 {
      SumOfOnes(w, k - 1);
    }
  }

  /** Without fuzzy rank each of the n matches of maximum rank has one n-th of the random numbers. */
  lemma EvenlyDrawn(w: seq<real>, u: real, i: nat)
    requires w != [] && (forall j :: 0 <= j < |w| ==> w[j] == 1.0) && 0.0 <= u < 1.0
    ensures FoundByBound(w, Times(u, Prefix(w, |w|)), i) <==>
            i < |w| && (i == 0 || i as real < u * |w| as real) && u * |w| as real <= i as real + 1.0
  {
    SumOfOnes(w, |w|);
    ShareOfTotal(w, u, i);
    if i < |w| {
      SumOfOnes(w, i);
      SumOfOnes(w, i + 1);
    }
  }

  /** All nodes of a cluster draw from one order of its matches: with fuzzy rank all of them as they
      came, by their smoothed weights; without it those of maximum rank, all with the same weight. */
  ghost predicate DrawnFrom(answer: Answer, squash: real -> real, order: seq<Match>, w: seq<real>)
    requires forall x: real :: squash(x) > 0.0
  {
    if answer.fuzzy then order == answer.matches && w == Weights(answer.matches, answer.factor, squash)
    else TopFirst(order, |w|, answer.matches) && forall i :: 0 <= i < |w| ==> w[i] == 1.0
  }

  /** The distribution over the matches a choice may take, which come first in `matches`. */
  ghost predicate Prepared(answer: Answer, squash: real -> real, matches: seq<Match>, d: seq<real>, w: seq<real>)
    requires forall x: real :: squash(x) > 0.0
  {
    && IsDistribution(d, w) && Positive(w) && |d| <= |matches|
    && (|d| == 0 <==> answer.matches == [])
    && DrawnFrom(answer, squash, matches, w)
  }

  method PrepareTop(answer: Answer) returns (matches: array<Match>, d: array<real>, ghost w: seq<real>)
    ensures fresh(matches) && fresh(d)
    ensures IsDistribution(d[..], w) && Positive(w) && d.Length <= matches.Length
    ensures d.Length == 0 <==> answer.matches == []
    ensures TopFirst(matches[..], d.Length, answer.matches) && forall i :: 0 <= i < |w| ==> w[i] == 1.0
  {
    matches := new Match[|answer.matches|](i requires 0 <= i < |answer.matches| => answer.matches[i]);
    assert matches[..] == answer.matches;
    var end := MaxPartition(matches);
    d := new real[end](_ => 1.0);
    w := d[..];
    PartialSum(d);
  }

  method PrepareChoice(answer: Answer, squash: real -> real)
      returns (matches: array<Match>, d: array<real>, ghost w: seq<real>)
    requires forall x: real :: squash(x) > 0.0
    ensures Prepared(answer, squash, matches[..], d[..], w)
  {
    if answer.fuzzy {
      matches := new Match[|answer.matches|](i requires 0 <= i < |answer.matches| => answer.matches[i]);
      w := Weights(answer.matches, answer.factor, squash);
      d := MakeDistribution(answer.matches, answer.factor, squash);
      assert matches[..] == answer.matches;
    } else {
      matches, d, w := PrepareTop(answer);
    }
  }

  method Choose(ghost answer: Answer, ghost squash: real -> real, u: real, matches: array<Match>, d: array<real>,
                ghost w: seq<real>)
      returns (m: Match)
    requires forall x: real :: squash(x) > 0.0
    requires Prepared(answer, squash, matches[..], d[..], w) && d.Length > 0 && 0.0 <= u < 1.0
    ensures GoodChoice(answer, squash, u, m) && Drawn(matches[..], w, u, m)
  {
    var i := SelectDestination(d, u, w);
    m := matches[i];
    ChoiceIsGood(answer, squash, u, matches[..], d[..], w, i);
  }

  lemma ChoiceIsGood(answer: Answer, squash: real -> real, u: real, ms: seq<Match>, d: seq<real>, w: seq<real>, i: nat)
    requires forall x: real :: squash(x) > 0.0
    requires Prepared(answer, squash, ms, d, w) && FoundByBound(w, Times(u, Prefix(w, |w|)), i)
    ensures GoodChoice(answer, squash, u, ms[i])
  {
    if !answer.fuzzy {
      assert ms[i] in multiset(ms);
      assert ms[i] in multiset(answer.matches);
    }
  }

  /** The destinations of the nodes of one cluster. */
  method ChooseAll(names: seq<string>, ghost answer: Answer, ghost squash: real -> real, draw: string -> real,
                   matches: array<Match>, d: array<real>, ghost w: seq<real>)
      returns (chosen: seq<Match>)
    requires forall x: real :: squash(x) > 0.0
    requires forall s: string :: 0.0 <= draw(s) < 1.0
    requires Prepared(answer, squash, matches[..], d[..], w) && d.Length > 0
    ensures |chosen| == |names|
    ensures forall i :: 0 <= i < |names| ==> GoodChoice(answer, squash, draw(names[i]), chosen[i])
    ensures forall i :: 0 <= i < |names| ==> Drawn(matches[..], w, draw(names[i]), chosen[i])
  {
    chosen := [];
    for i := 0 to |names|
      invariant |chosen| == i
      invariant forall j :: 0 <= j < i ==> GoodChoice(answer, squash, draw(names[j]), chosen[j])
      invariant forall j :: 0 <= j < i ==> Drawn(matches[..], w, draw(names[j]), chosen[j])
    {
      var m := Choose(answer, squash, draw(names[i]), matches, d, w);
      chosen := chosen + [m];
    }
  }

  datatype Placement = Placement(node: string, match_: Match)

  /** Schedules the nodes of one cluster, or adds them to the pending ones. */
  method Schedule(names: seq<string>, answer: Answer, squash: real -> real, draw: string -> real,
                  scheduled0: seq<Placement>, pending0: set<string>)
      returns (scheduled: seq<Placement>, pending: set<string>, ghost chosen: seq<Match>,
               ghost order: seq<Match>, ghost w: seq<real>)
    requires forall x: real :: squash(x) > 0.0
    requires forall s: string :: 0.0 <= draw(s) < 1.0
    ensures answer.matches == [] ==> scheduled == scheduled0 && pending == pending0 + (set n | n in names)
    ensures answer.matches != [] ==>
              && pending == pending0
              && |chosen| == |names| && scheduled == scheduled0 + Place(names, chosen)
              && (forall i :: 0 <= i < |names| ==> GoodChoice(answer, squash, draw(names[i]), chosen[i]))
              && |w| <= |order| && DrawnFrom(answer, squash, order, w)
              && (forall i :: 0 <= i < |names| ==> Drawn(order, w, draw(names[i]), chosen[i]))
  {
    var matches, d;
    matches, d, w := PrepareChoice(answer, squash);
    order := matches[..];
    scheduled, pending := scheduled0, pending0;
    if d.Length > 0 {
      var destinations := ChooseAll(names, answer, squash, draw, matches, d, w);
      chosen := destinations;
      ghost var all := Place(names, destinations);
      for i := 0 to |names|
        invariant scheduled == scheduled0 + all[..i]
      {
        scheduled := scheduled + [Placement(names[i], destinations[i])];
        assert all[..i + 1] == all[..i] + [all[i]];
      }
      assert all[..|names|] == all;
    } else {
      chosen := [];
      for i := 0 to |names|
        invariant pending == pending0 + set n | n in names[..i]
      {
        assert names[..i + 1] == names[..i] + [names[i]];
        pending := pending + {names[i]};
      }
      assert names[..|names|] == names;
    }
  }

  function Place(names: seq<string>, chosen: seq<Match>): seq<Placement>
    requires |names| == |chosen|
  {
    seq(|names|, i requires 0 <= i < |names| => Placement(names[i], chosen[i]))
  }

  // ----------------------------------------------------------------- the whole collection

  function ScheduledNames(scheduled: seq<Placement>): seq<string> {
    seq(|scheduled|, i requires 0 <= i < |scheduled| => scheduled[i].node)
  }

  /** Where the nodes stand once the clusters in `done` have been scheduled. */
  ghost predicate Placed(nodes: seq<Node>, keys: seq<Key>, answers: map<Key, Answer>, done: set<Key>,
                         names: seq<string>, pending: set<string>)
    requires |keys| == |nodes| && done <= answers.Keys
  {
    forall i :: 0 <= i < |nodes| ==>
      && (multiset(names)[nodes[i].name] == if keys[i] in done && answers[keys[i]].matches != [] then 1 else 0)
      && (nodes[i].name in pending <==> keys[i] in done && answers[keys[i]].matches == [])
  }

  ghost predicate OnlyNodes(nodes: seq<Node>, names: set<string>) {
    forall s <- names :: exists i :: 0 <= i < |nodes| && nodes[i].name == s
  }

  lemma ClusterHasOnlyNodes(nodes: seq<Node>, keys: seq<Key>, key: Key)
    requires |keys| == |nodes|
    ensures OnlyNodes(nodes, set n | n in NamesWith(nodes, keys, key, |nodes|))
  {
    var names := NamesWith(nodes, keys, key, |nodes|);
    forall s | s in names ensures exists i :: 0 <= i < |nodes| && nodes[i].name == s {
      var j :| 0 <= j < |names| && names[j] == s;
      NamesAreNodes(nodes, keys, key, |nodes|, j);
    }
  }

  /** Every scheduled entry is a node with a choice its cluster's answer allows. */
  ghost predicate WellChosen(nodes: seq<Node>, keys: seq<Key>, answers: map<Key, Answer>, squash: real -> real,
                             draw: string -> real, scheduled: seq<Placement>)
    requires |keys| == |nodes| && forall x: real :: squash(x) > 0.0
  {
    forall k :: 0 <= k < |scheduled| ==> ForSomeNode(nodes, keys, answers, squash, draw, scheduled[k])
  }

  ghost predicate ForSomeNode(nodes: seq<Node>, keys: seq<Key>, answers: map<Key, Answer>, squash: real -> real,
                              draw: string -> real, p: Placement)
    requires |keys| == |nodes| && forall x: real :: squash(x) > 0.0
  {
    exists i :: 0 <= i < |nodes| && nodes[i].name == p.node
                && keys[i] in answers && GoodChoice(answers[keys[i]], squash, draw(p.node), p.match_)
  }

  lemma {:induction false} NamesAreNodes(nodes: seq<Node>, keys: seq<Key>, key: Key, k: nat, j: nat)
    requires k <= |nodes| == |keys| && j < |NamesWith(nodes, keys, key, k)|
    ensures exists i :: 0 <= i < k && keys[i] == key && nodes[i].name == NamesWith(nodes, keys, key, k)[j]
  {
    if k > 0 {
      if j < |NamesWith(nodes, keys, key, k - 1)| {
        NamesAreNodes(nodes, keys, key, k - 1, j);
      } else {
        assert keys[k - 1] == key;
      }
    }
  }

  /** One more cluster scheduled. */
  lemma PlacedGrows(nodes: seq<Node>, keys: seq<Key>, answers: map<Key, Answer>, done: set<Key>, key: Key,
                    names: seq<string>, names': seq<string>, pending: set<string>, pending': set<string>)
    requires DistinctNames(nodes) && |keys| == |nodes| && done <= answers.Keys && key in answers && key !in done
    requires Placed(nodes, keys, answers, done, names, pending)
    requires
      var new_ := NamesWith(nodes, keys, key, |nodes|);
      if answers[key].matches == [] then names' == names && pending' == pending + set n | n in new_
      else names' == names + new_ && pending' == pending
    ensures Placed(nodes, keys, answers, done + {key}, names', pending')
  {
    var new_ := NamesWith(nodes, keys, key, |nodes|);
    forall i | 0 <= i < |nodes|
      ensures multiset(names')[nodes[i].name] ==
              if keys[i] in done + {key} && answers[keys[i]].matches != [] then 1 else 0
      ensures nodes[i].name in pending' <==> keys[i] in done + {key} && answers[keys[i]].matches == []
    {
      NameCount(nodes, keys, key, |nodes|, i);
      assert nodes[i].name in new_ <==> nodes[i].name in multiset(new_);
    }
  }

  lemma ChosenForNodes(nodes: seq<Node>, keys: seq<Key>, answers: map<Key, Answer>, squash: real -> real,
                       draw: string -> real, key: Key, chosen: seq<Match>)
    requires |keys| == |nodes| && (forall x: real :: squash(x) > 0.0) && key in answers
    requires
      var names := NamesWith(nodes, keys, key, |nodes|);
      && |chosen| == |names|
      && forall i :: 0 <= i < |names| ==> GoodChoice(answers[key], squash, draw(names[i]), chosen[i])
    ensures WellChosen(nodes, keys, answers, squash, draw, Place(NamesWith(nodes, keys, key, |nodes|), chosen))
  {
    var names := NamesWith(nodes, keys, key, |nodes|);
    forall j | 0 <= j < |names| ensures ForSomeNode(nodes, keys, answers, squash, draw, Place(names, chosen)[j]) {
      NamesAreNodes(nodes, keys, key, |nodes|, j);
    }
  }

  lemma WellChosenAppend(nodes: seq<Node>, keys: seq<Key>, answers: map<Key, Answer>, squash: real -> real,
                         draw: string -> real, a: seq<Placement>, b: seq<Placement>)
    requires |keys| == |nodes| && forall x: real :: squash(x) > 0.0
    requires WellChosen(nodes, keys, answers, squash, draw, a) && WellChosen(nodes, keys, answers, squash, draw, b)
    ensures WellChosen(nodes, keys, answers, squash, draw, a + b)
  {
    forall k | 0 <= k < |a + b| ensures ForSomeNode(nodes, keys, answers, squash, draw, (a + b)[k]) {
      if k < |a| {
        assert ForSomeNode(nodes, keys, answers, squash, draw, a[k]);
      } else {
        assert ForSomeNode(nodes, keys, answers, squash, draw, b[k - |a|]);
      }
    }
  }

  /** What scheduling one cluster adds, in names and in choices. */
  lemma ClusterScheduled(nodes: seq<Node>, keys: seq<Key>, answers: map<Key, Answer>, squash: real -> real,
                         draw: string -> real, key: Key, scheduled0: seq<Placement>, scheduled: seq<Placement>,
                         chosen: seq<Match>)
    requires (forall x: real :: squash(x) > 0.0) && |keys| == |nodes| && key in answers
    requires
      var names := NamesWith(nodes, keys, key, |nodes|);
      && |chosen| == |names|
      && (forall i :: 0 <= i < |names| ==> GoodChoice(answers[key], squash, draw(names[i]), chosen[i]))
      && scheduled == scheduled0 + Place(names, chosen)
    requires WellChosen(nodes, keys, answers, squash, draw, scheduled0)
    ensures WellChosen(nodes, keys, answers, squash, draw, scheduled)
    ensures ScheduledNames(scheduled) == ScheduledNames(scheduled0) + NamesWith(nodes, keys, key, |nodes|)
  {
    var names := NamesWith(nodes, keys, key, |nodes|);
    var placed := Place(names, chosen);
    ChosenForNodes(nodes, keys, answers, squash, draw, key, chosen);
    WellChosenAppend(nodes, keys, answers, squash, draw, scheduled0, placed);
    NamesPlaced(scheduled0, names, chosen);
  }

  lemma NamesPlaced(scheduled: seq<Placement>, names: seq<string>, chosen: seq<Match>)
    requires |names| == |chosen|
    ensures ScheduledNames(scheduled + Place(names, chosen)) == ScheduledNames(scheduled) + names
  {
  }

  /** Schedules one cluster of the collection. */
  method ScheduleCluster(ghost nodes: seq<Node>, ghost keys: seq<Key>, ghost answers: map<Key, Answer>,
                         ghost done: set<Key>, ghost key: Key, names: seq<string>, answer: Answer,
                         squash: real -> real, draw: string -> real, scheduled0: seq<Placement>, pending0: set<string>)
      returns (scheduled: seq<Placement>, pending: set<string>)
    requires (forall x: real :: squash(x) > 0.0) && forall s: string :: 0.0 <= draw(s) < 1.0
    requires DistinctNames(nodes) && |keys| == |nodes| && done <= answers.Keys && key in answers && key !in done
    requires answer == answers[key] && names == NamesWith(nodes, keys, key, |nodes|)
    requires Placed(nodes, keys, answers, done, ScheduledNames(scheduled0), pending0)
    requires WellChosen(nodes, keys, answers, squash, draw, scheduled0) && OnlyNodes(nodes, pending0)
    ensures Placed(nodes, keys, answers, done + {key}, ScheduledNames(scheduled), pending)
    ensures WellChosen(nodes, keys, answers, squash, draw, scheduled) && OnlyNodes(nodes, pending)
  {
    ClusterHasOnlyNodes(nodes, keys, key);
    ghost var chosen: seq<Match>;
    ghost var order, w;
    scheduled, pending, chosen, order, w := Schedule(names, answer, squash, draw, scheduled0, pending0);
    if answer.matches != [] {
      ClusterScheduled(nodes, keys, answers, squash, draw, key, scheduled0, scheduled, chosen);
    }
    PlacedGrows(nodes, keys, answers, done, key, ScheduledNames(scheduled0), ScheduledNames(scheduled),
                pending0, pending);
  }

  /** The clusters one after the other, in whatever order the map of clusters has. */
  method ScheduleAll(ghost nodes: seq<Node>, ghost keys: seq<Key>, clusters: map<Key, Cluster>,
                     ghost answers: map<Key, Answer>, resolve: Cluster -> Answer, squash: real -> real,
                     draw: string -> real)
      returns (scheduled: seq<Placement>, pending: set<string>)
    requires (forall x: real :: squash(x) > 0.0) && forall s: string :: 0.0 <= draw(s) < 1.0
    requires DistinctNames(nodes) && |keys| == |nodes|
    requires answers.Keys == clusters.Keys
    requires forall key <- clusters ::
               clusters[key].names == NamesWith(nodes, keys, key, |nodes|) && answers[key] == resolve(clusters[key])
    ensures Placed(nodes, keys, answers, answers.Keys, ScheduledNames(scheduled), pending)
    ensures WellChosen(nodes, keys, answers, squash, draw, scheduled) && OnlyNodes(nodes, pending)
  {
    scheduled, pending := [], {};
    var left := clusters.Keys;
    ghost var done: set<Key> := {};
    while left != {}
      invariant done !! left && done + left == answers.Keys
      invariant Placed(nodes, keys, answers, done, ScheduledNames(scheduled), pending)
      invariant WellChosen(nodes, keys, answers, squash, draw, scheduled) && OnlyNodes(nodes, pending)
      decreases left
    {
      var key :| key in left;
      scheduled, pending := ScheduleCluster(nodes, keys, answers, done, key, clusters[key].names,
                                            resolve(clusters[key]), squash, draw, scheduled, pending);
      left, done := left - {key}, done + {key};
    }
  }

  /** What the matchmaker answers for every key that occurs. */
  ghost function Answers(nodes: seq<Node>, keys: seq<Key>, resolve: Cluster -> Answer): map<Key, Answer>
    requires |keys| == |nodes|
  {
    assert keys[..|nodes|] == keys;
    map key | key in keys :: resolve(ClusterOf(nodes, keys, key, |nodes|))
  }

  /** The bulk matchmaking of a collection.  Every node ends exactly once as scheduled or pending:
      pending if and only if its cluster has no match, scheduled with a choice that its cluster's
      answer allows otherwise. */
  method DoBulkMM(nodes: seq<Node>, dag: DagAd, resolve: Cluster -> Answer, squash: real -> real, draw: string -> real)
      returns (scheduled: seq<Placement>, pending: set<string>)
    requires (forall x: real :: squash(x) > 0.0) && forall s: string :: 0.0 <= draw(s) < 1.0
    requires DistinctNames(nodes)
    ensures
      var answers := Answers(nodes, Keys(nodes, dag), resolve);
      && (forall i :: 0 <= i < |nodes| ==>
            && KeyOf(nodes[i], dag) in answers
            && (multiset(ScheduledNames(scheduled))[nodes[i].name] ==
                if answers[KeyOf(nodes[i], dag)].matches != [] then 1 else 0)
            && (nodes[i].name in pending <==> answers[KeyOf(nodes[i], dag)].matches == []))
      && WellChosen(nodes, Keys(nodes, dag), answers, squash, draw, scheduled)
    ensures forall s <- pending :: exists i :: 0 <= i < |nodes| && nodes[i].name == s
  {
    var clusters := Clusterize(nodes, dag);
    ghost var keys := Keys(nodes, dag);
    ghost var answers := Answers(nodes, keys, resolve);
    assert keys[..|nodes|] == keys;
    assert answers.Keys == clusters.Keys;
    scheduled, pending := ScheduleAll(nodes, keys, clusters, answers, resolve, squash, draw);
    forall i | 0 <= i < |nodes|
      ensures KeyOf(nodes[i], dag) in answers
      ensures multiset(ScheduledNames(scheduled))[nodes[i].name] ==
              if answers[KeyOf(nodes[i], dag)].matches != [] then 1 else 0
      ensures nodes[i].name in pending <==> answers[KeyOf(nodes[i], dag)].matches == []
    {
      assert keys[i] == KeyOf(nodes[i], dag) && keys[i] in clusters;
    }
  }

  /** Without fuzzy rank, every node that is scheduled goes to a resource of the maximum rank that
      its cluster was offered. */
  lemma ScheduledAtMaximumRank(nodes: seq<Node>, keys: seq<Key>, answers: map<Key, Answer>, squash: real -> real,
                               draw: string -> real, scheduled: seq<Placement>, k: nat, i: nat)
    requires |keys| == |nodes| && forall x: real :: squash(x) > 0.0
    requires DistinctNames(nodes) && WellChosen(nodes, keys, answers, squash, draw, scheduled)
    requires k < |scheduled| && i < |nodes| && scheduled[k].node == nodes[i].name
    ensures keys[i] in answers && scheduled[k].match_ in answers[keys[i]].matches
    ensures !answers[keys[i]].fuzzy ==> forall x <- answers[keys[i]].matches :: x.rank <= scheduled[k].match_.rank
  {
    assert ForSomeNode(nodes, keys, answers, squash, draw, scheduled[k]);
  }
}
