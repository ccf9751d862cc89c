/** The evidence of a durable result: fact ids are unique, every reference is known, and no fact is
    derived, however indirectly, from itself. */
module Lineage {
  import opened Common
  import opened Ordering

  type FactId = string

  datatype Fact = Fact(id: FactId, inputs: seq<FactId>)

  datatype LineageError = DuplicateFact | UnknownEvidence | CyclicLineage

  type Graph = map<FactId, set<FactId>>

  // ------------------------------------------------------------------ the fact graph

  function Ids(facts: seq<Fact>): (r: seq<FactId>)
    ensures |r| == |facts| && forall i :: 0 <= i < |r| ==> r[i] == facts[i].id
  {
    seq(|facts|, i requires 0 <= i < |facts| => facts[i].id)
  }

  /** Each fact with the set of facts it is derived from. */
  function GraphOf(facts: seq<Fact>): (g: Graph)
    ensures forall id :: id in g <==> id in Ids(facts)
    ensures forall id :: id in g ==> exists f :: f in facts && f.id == id && g[id] == set x | x in f.inputs
  {
    if facts == [] then map[]
    else
      var front, last := facts[..|facts| - 1], facts[|facts| - 1];
      assert facts == front + [last] && Ids(facts) == Ids(front) + [last.id];
      var g := GraphOf(front)[last.id := set x | x in last.inputs];
      assert last in facts && forall f :: f in front ==> f in facts;
      g
  }

  /** `b` is an input of `a`. */
  predicate Derives(g: Graph, a: FactId, b: FactId) {
    a in g && b in g[a]
  }

  predicate StepAt(g: Graph, path: seq<FactId>, i: nat)
    requires i + 1 < |path|
  {
    Derives(g, path[i], path[i + 1])
  }

  /** Each fact of the path is derived from the next. */
  ghost predicate Path(g: Graph, path: seq<FactId>) {
    forall i :: 0 <= i < |path| - 1 ==> StepAt(g, path, i)
  }

  ghost predicate Cycle(g: Graph, path: seq<FactId>) {
    |path| >= 2 && path[0] == path[|path| - 1] && Path(g, path)
  }

  ghost predicate HasCycle(g: Graph) {
    exists path :: Cycle(g, path)
  }

  /** Every fact stands above all it is derived from. */
  ghost predicate Ranked(g: Graph, rank: map<FactId, nat>) {
    forall a, b :: Derives(g, a, b) ==> a in rank && b in rank && rank[b] < rank[a]
  }

  lemma {:induction false} RankFallsAlongPaths(g: Graph, rank: map<FactId, nat>, path: seq<FactId>, k: nat)
    requires Ranked(g, rank) && Path(g, path) && 0 < k < |path|
    ensures path[0] in rank && path[k] in rank && rank[path[k]] < rank[path[0]]
  {
    assert StepAt(g, path, k - 1);
    if k > 1 {
      RankFallsAlongPaths(g, rank, path, k - 1);
    }
  }

  /** A ranking rules out every cycle. */
  lemma {:induction false} RankedHasNoCycle(g: Graph, rank: map<FactId, nat>)
    requires Ranked(g, rank)
    ensures !HasCycle(g)
  {
    forall path ensures !Cycle(g, path) {
      if Cycle(g, path) {
        RankFallsAlongPaths(g, rank, path, |path| - 1);
      }
    }
  }

  // ------------------------------------------------------------------ a stuck rest contains a cycle

  ghost predicate InputIn(g: Graph, rest: set<FactId>, a: FactId) {
    exists b :: b in rest && Derives(g, a, b)
  }

  /** Every fact of the rest is derived from a fact of the rest. */
  ghost predicate Stuck(g: Graph, rest: set<FactId>) {
    rest != {} && forall a {:trigger InputIn(g, rest, a)} :: a in rest ==> InputIn(g, rest, a)
  }

  lemma {:induction false} WalkInRest(g: Graph, rest: set<FactId>, n: nat) returns (path: seq<FactId>)
    requires Stuck(g, rest)
    ensures |path| == n + 1 && Path(g, path) && forall x :: x in path ==> x in rest
  {
    if n == 0 {
      var a :| a in rest;
      path := [a];
    } else {
      var front := WalkInRest(g, rest, n - 1);
      assert front[n - 1] in front && InputIn(g, rest, front[n - 1]);
      var b :| b in rest && Derives(g, front[n - 1], b);
      path := front + [b];
      forall i | 0 <= i < |path| - 1 ensures StepAt(g, path, i) {
        if i < n - 1 {
          assert StepAt(g, front, i);
        }
      }
    }
  }

  lemma {:induction false} SubsetSize(a: set<FactId>, b: set<FactId>)
    requires a <= b
    ensures |a| <= |b|
  {
    assert b == a + (b - a);
  }

  /** A walk longer than the rest is large comes back to some fact. */
  lemma {:induction false} StuckHasCycle(g: Graph, rest: set<FactId>)
    requires Stuck(g, rest)
    ensures HasCycle(g)
  {
    var path := WalkInRest(g, rest, |rest|);
    DistinctByCount(path);
    SubsetSize((set x | x in path), rest);
    var i, j :| 0 <= i < j < |path| && path[i] == path[j];
    var loop := path[i..j + 1];
    forall k | 0 <= k < |loop| - 1 ensures StepAt(g, loop, k) {
      assert StepAt(g, path, i + k);
    }
    assert Cycle(g, loop);
  }

  // ------------------------------------------------------------------ peeling, as it runs

  /** What is left: the facts not yet peeled, with their inputs restricted to those facts. */
  ghost predicate Restricted(g: Graph, remaining: Graph) {
    && remaining.Keys <= g.Keys
    && forall a :: a in remaining ==> remaining[a] == g[a] * remaining.Keys
  }

  /** The peeled facts are ranked, and derived only from facts peeled before them. */
  ghost predicate PeeledRanked(g: Graph, remaining: Graph, rank: map<FactId, nat>, round: nat) {
    && rank.Keys == g.Keys - remaining.Keys
    && (forall a :: a in rank ==> rank[a] < round)
    && (forall a, b :: a in rank && Derives(g, a, b) ==> b in rank && rank[b] < rank[a])
  }

  ghost predicate Closed(g: Graph) {
    forall a, b :: Derives(g, a, b) ==> b in g
  }

  function ReadyIn(remaining: Graph): set<FactId> {
    set a | a in remaining && remaining[a] == {}
  }

  function Peeled(remaining: Graph): Graph {
    map a | a in remaining && a !in ReadyIn(remaining) :: remaining[a] - ReadyIn(remaining)
  }

  lemma {:induction false} PeelKeeps(g: Graph, remaining: Graph, rank: map<FactId, nat>, round: nat) returns (now: map<FactId, nat>)
    requires Closed(g) && Restricted(g, remaining) && PeeledRanked(g, remaining, rank, round)
    ensures Restricted(g, Peeled(remaining)) && PeeledRanked(g, Peeled(remaining), now, round + 1)
  {
    var ready := ReadyIn(remaining);
    now := map a | a in rank.Keys + ready :: if a in rank then rank[a] else round;
    assert Peeled(remaining).Keys == remaining.Keys - ready;
    forall a, b | a in now && Derives(g, a, b) ensures b in now && now[b] < now[a] {
      if a !in rank {
        assert a in ready;
        assert b !in g[a] * remaining.Keys;
      }
    }
  }

  lemma {:induction false} NoneReadyIsStuck(g: Graph, remaining: Graph)
    requires Restricted(g, remaining) && remaining != map[] && ReadyIn(remaining) == {}
    ensures Stuck(g, remaining.Keys)
  {
    assert remaining.Keys == {} ==> remaining == map[];
    forall a | a in remaining ensures InputIn(g, remaining.Keys, a) {
      assert a !in ReadyIn(remaining);
      var b :| b in remaining[a];
      assert b in remaining.Keys && Derives(g, a, b);
    }
  }

  /** The peeling loop accepts exactly the graphs without a cycle; on acceptance every fact has a
      rank above its inputs, the round it was peeled in. */
  method PeelLineage(g: Graph) returns (acyclic: bool, ghost rank: map<FactId, nat>)
    requires Closed(g)
    ensures acyclic <==> !HasCycle(g)
    ensures acyclic ==> rank.Keys == g.Keys && Ranked(g, rank)
  {
    var remaining := g;
    rank := map[];
    ghost var round := 0;
    forall a | a in g ensures g[a] == g[a] * g.Keys {
      assert forall b :: b in g[a] ==> Derives(g, a, b);
    }
    while remaining != map[]
      invariant Restricted(g, remaining) && PeeledRanked(g, remaining, rank, round)
      decreases |remaining.Keys|
    {
      var ready := ReadyIn(remaining);
      if ready == {} {
        NoneReadyIsStuck(g, remaining);
        StuckHasCycle(g, remaining.Keys);
        return false, rank;
      }
      rank := PeelKeeps(g, remaining, rank, round);
      round := round + 1;
      Shrinks(remaining);
      remaining := Peeled(remaining);
    }
    AllPeeled(g, rank, round);
    return true, rank;
  }

  lemma {:induction false} Shrinks(remaining: Graph)
    requires ReadyIn(remaining) != {}
    ensures |Peeled(remaining).Keys| < |remaining.Keys|
  {
    assert remaining.Keys == Peeled(remaining).Keys + ReadyIn(remaining) && Peeled(remaining).Keys !! ReadyIn(remaining);
  }

  lemma {:induction false} AllPeeled(g: Graph, rank: map<FactId, nat>, round: nat)
    requires PeeledRanked(g, map[], rank, round)
    ensures rank.Keys == g.Keys && Ranked(g, rank) && !HasCycle(g)
  {
    RankedHasNoCycle(g, rank);
  }

  // ------------------------------------------------------------------ the check

  function InputsOf(facts: seq<Fact>): (r: set<FactId>)
    ensures forall x :: x in r <==> exists f :: f in facts && x in f.inputs
  {
    set f, x | f in facts && x in f.inputs :: x
  }

  ghost predicate AllKnown(facts: seq<Fact>, cited: set<FactId>) {
    forall x :: x in cited || (exists f :: f in facts && x in f.inputs) ==> x in Ids(facts)
  }

  // ------------------------------------------------------------------ the errors, said of the facts

  /** Fact `at[k]` lists the id of fact `at[k + 1]` among its inputs, and the walk comes back. */
  ghost predicate Circle(facts: seq<Fact>, at: seq<nat>) {
    && |at| >= 2 && at[0] == at[|at| - 1]
    && (forall k :: 0 <= k < |at| ==> at[k] < |facts|)
    && (forall k :: 0 < k < |at| ==> facts[at[k]].id in facts[at[k - 1]].inputs)
  }

  /** The graph has the inputs of the last fact with each id. */
  lemma {:induction false} InputsInGraph(facts: seq<Fact>, i: nat)
    requires i < |facts| && forall j :: i < j < |facts| ==> facts[j].id != facts[i].id
    ensures facts[i].id in GraphOf(facts) && GraphOf(facts)[facts[i].id] == set x | x in facts[i].inputs
  {
    if i < |facts| - 1 {
      InputsInGraph(facts[..|facts| - 1], i);
    }
  }

  ghost predicate IdsDiffer(facts: seq<Fact>) {
    forall i, j :: 0 <= i < j < |facts| ==> facts[i].id != facts[j].id
  }

  ghost predicate HasId(facts: seq<Fact>, x: FactId) {
    exists i :: 0 <= i < |facts| && facts[i].id == x
  }

  ghost predicate IsInput(facts: seq<Fact>, x: FactId) {
    exists i :: 0 <= i < |facts| && x in facts[i].inputs
  }

  lemma {:induction false} PathOfCircle(facts: seq<Fact>, at: seq<nat>) returns (path: seq<FactId>)
    requires IdsDiffer(facts) && Circle(facts, at)
    ensures Cycle(GraphOf(facts), path)
  {
    path := seq(|at|, k requires 0 <= k < |at| => facts[at[k]].id);
    forall k | 0 <= k < |path| - 1 ensures StepAt(GraphOf(facts), path, k) {
      InputsInGraph(facts, at[k]);
      assert facts[at[k + 1]].id in facts[at[k + 1 - 1]].inputs;
    }
  }

  ghost function Position(facts: seq<Fact>, id: FactId): (i: nat)
    requires HasId(facts, id)
    ensures i < |facts| && facts[i].id == id
  {
    var i :| 0 <= i < |facts| && facts[i].id == id;
    i
  }

  lemma {:induction false} IdsMean(facts: seq<Fact>, x: FactId)
    ensures x in Ids(facts) <==> HasId(facts, x)
  {
    if HasId(facts, x) {
      var i :| 0 <= i < |facts| && facts[i].id == x;
      assert Ids(facts)[i] == x;
    }
  }

  lemma {:induction false} OnPath(facts: seq<Fact>, path: seq<FactId>, k: nat)
    requires Cycle(GraphOf(facts), path) && k < |path|
    ensures HasId(facts, path[k])
  {
    assert k < |path| - 1 ==> StepAt(GraphOf(facts), path, k);
    assert k == |path| - 1 ==> StepAt(GraphOf(facts), path, 0);
    IdsMean(facts, path[k]);
  }

  lemma {:induction false} StepOfPath(facts: seq<Fact>, path: seq<FactId>, i: nat, j: nat, k: nat)
    requires IdsDiffer(facts) && i < |facts| && j < |facts| && k + 1 < |path| && StepAt(GraphOf(facts), path, k)
    requires facts[i].id == path[k] && facts[j].id == path[k + 1]
    ensures facts[j].id in facts[i].inputs
  {
    InputsInGraph(facts, i);
  }

  lemma {:induction false} CircleOfPath(facts: seq<Fact>, path: seq<FactId>) returns (at: seq<nat>)
    requires IdsDiffer(facts) && Cycle(GraphOf(facts), path)
    ensures Circle(facts, at)
  {
    forall k | 0 <= k < |path| ensures HasId(facts, path[k]) {
      OnPath(facts, path, k);
    }
    at := seq(|path|, k requires 0 <= k < |path| => Position(facts, path[k]));
    forall k | 0 < k < |at| ensures facts[at[k]].id in facts[at[k - 1]].inputs {
      assert StepAt(GraphOf(facts), path, k - 1);
      StepOfPath(facts, path, at[k - 1], at[k], k - 1);
    }
  }

  ghost predicate SomeCircle(facts: seq<Fact>) {
    exists at :: Circle(facts, at)
  }

  lemma {:induction false} DistinctMeans(facts: seq<Fact>)
    ensures Distinct(Ids(facts)) <==> IdsDiffer(facts)
  {
    var ids := Ids(facts);
    if Distinct(ids) {
      forall i, j | 0 <= i < j < |facts| ensures facts[i].id != facts[j].id {
        assert ids[i] != ids[j];
      }
    }
  }

  lemma {:induction false} KnownMeans(facts: seq<Fact>, cited: set<FactId>)
    ensures AllKnown(facts, cited) <==> forall x :: x in cited || IsInput(facts, x) ==> HasId(facts, x)
  {
    forall x ensures x in Ids(facts) <==> HasId(facts, x) {
      IdsMean(facts, x);
    }
    forall x ensures (exists f :: f in facts && x in f.inputs) <==> IsInput(facts, x) {
      InputMeans(facts, x);
    }
  }

  lemma {:induction false} InputMeans(facts: seq<Fact>, x: FactId)
    ensures (exists f :: f in facts && x in f.inputs) <==> IsInput(facts, x)
  {
    if f :| f in facts && x in f.inputs {
      var i :| 0 <= i < |facts| && facts[i] == f;
    }
    if i :| 0 <= i < |facts| && x in facts[i].inputs {
      assert facts[i] in facts;
    }
  }

  lemma {:induction false} CirclesIff(facts: seq<Fact>)
    requires IdsDiffer(facts)
    ensures HasCycle(GraphOf(facts)) <==> SomeCircle(facts)
  {
    if path :| Cycle(GraphOf(facts), path) {
      var at := CircleOfPath(facts, path);
    }
    if at :| Circle(facts, at) {
      var path := PathOfCircle(facts, at);
    }
  }

  lemma {:induction false} KnownIsClosed(facts: seq<Fact>, cited: set<FactId>)
    requires AllKnown(facts, cited)
    ensures Closed(GraphOf(facts))
  {
    var g := GraphOf(facts);
    forall a, b | Derives(g, a, b) ensures b in g {
      var f :| f in facts && f.id == a && g[a] == set x | x in f.inputs;
      assert b in f.inputs;
    }
  }

  /** The evidence part of `validate_closed_result`; `cited` are the references of the candidates. */
  method ValidateLineage(facts: seq<Fact>, cited: set<FactId>) returns (error: Option<LineageError>)
    ensures error == if !IdsDiffer(facts) then Some(DuplicateFact)
                     else if exists x :: (x in cited || IsInput(facts, x)) && !HasId(facts, x) then Some(UnknownEvidence)
                     else if SomeCircle(facts) then Some(CyclicLineage)
                     else None
  {
    var ids := Ids(facts);
    var known := set x | x in ids;
    DistinctByCount(ids);
    DistinctMeans(facts);
    KnownMeans(facts, cited);
    if IdsDiffer(facts) {
      CirclesIff(facts);
    }
    if |known| != |facts| {
      return Some(DuplicateFact);
    }
    if !(InputsOf(facts) + cited <= known) {
      return Some(UnknownEvidence);
    }
    KnownIsClosed(facts, cited);
    var acyclic, _ := PeelLineage(GraphOf(facts));
    return if acyclic then None else Some(CyclicLineage);
  }
}
