/**
 * lavrov_graph(k): the graph on nodes 0 .. 2k-1 made of an inner cycle
 * 0 .. k-1, an outer cycle k .. 2k-1, and for every step i -> i+1 (mod k) the
 * two crossing edges between the cycles.
 */
module LavrovGraph {
  import opened Common
  import opened NxGraph

  /** (i + 1) % k, the next position on a cycle of length k. */
  function Succ(i: nat, k: nat): nat
    requires 0 < k
  {
    (i + 1) % k
  }

  lemma SuccValue(i: nat, k: nat)
    requires i < k
    ensures Succ(i, k) == if i + 1 < k then i + 1 else 0
  {
  }

  /** The four edges added in round i, in the order of the four add_edge calls. */
  function Round(k: nat, i: nat): seq<WEdge<int>>
    requires i < k
  {
    var s := Succ(i, k);
    [WEdge(i, s, None), WEdge(i + k, s + k, None), WEdge(i, s + k, None), WEdge(i + k, s, None)]
  }

  /** The edges of rounds 0 .. i-1, one after another. */
  function Rounds(k: nat, i: nat): seq<WEdge<int>>
    requires i <= k
  {
    if i == 0 then [] else Rounds(k, i - 1) + Round(k, i - 1)
  }

  /** The nodes after add_nodes_from([0, 2k - 1]). */
  function Seed(k: nat): seq<int> {
    WithNode(WithNode([], 0), 2 * k - 1)
  }

  /** The nodes of lavrov_graph(k), in insertion order. */
  function LavrovNodes(k: nat): seq<int> {
    NodesOf(Seed(k), Rounds(k, k))
  }

  /** The edges of lavrov_graph(k), in insertion order. */
  function LavrovEdges(k: nat): seq<WEdge<int>> {
    AddAll([], Rounds(k, k))
  }

  /** lavrov_graph(k). */
  method Lavrov(k: nat) returns (g: Graph<int>)
    ensures fresh(g) && g.Valid()
    ensures g.nodes == LavrovNodes(k) && g.edges == LavrovEdges(k)
    ensures 1 <= k ==> g.NumberOfNodes() == 2 * k
    ensures 3 <= k ==> g.NumberOfEdges() == 4 * k
  {
    g := new Graph();
    g.AddNode(0);
    g.AddNode(2 * k - 1);
    for i := 0 to k
      invariant g.Valid()
      invariant g.nodes == NodesOf(Seed(k), Rounds(k, i))
      invariant g.edges == AddAll([], Rounds(k, i))
    {
      AddRound(g, k, i);
    }
    LavrovNodeSet(k);
    if 3 <= k {
      LavrovEdgeCount(k);
    }
  }

  /** One pass of the loop of lavrov_graph: the four add_edge calls of step i. */
  method AddRound(g: Graph<int>, k: nat, i: nat)
    requires i < k && g.Valid()
    requires g.nodes == NodesOf(Seed(k), Rounds(k, i)) && g.edges == AddAll([], Rounds(k, i))
    modifies g
    ensures g.Valid()
    ensures g.nodes == NodesOf(Seed(k), Rounds(k, i + 1)) && g.edges == AddAll([], Rounds(k, i + 1))
  {
    var s := (i + 1) % k;
    var i', s' := i + k, s + k;
    RoundsNext(k, i, s, i', s');
    ghost var ws := Rounds(k, i);
    g.AddEdge(i, s, None);
    AddAllSnoc([], Seed(k), ws, WEdge(i, s, None));
    ws := ws + [WEdge(i, s, None)];
    g.AddEdge(i', s', None);
    AddAllSnoc([], Seed(k), ws, WEdge(i', s', None));
    ws := ws + [WEdge(i', s', None)];
    g.AddEdge(i, s', None);
    AddAllSnoc([], Seed(k), ws, WEdge(i, s', None));
    ws := ws + [WEdge(i, s', None)];
    g.AddEdge(i', s, None);
    AddAllSnoc([], Seed(k), ws, WEdge(i', s, None));
    ws := ws + [WEdge(i', s, None)];
  }

  /** Rounds(k, i + 1) is Rounds(k, i) followed by the edges of the four add_edge calls. */
  lemma RoundsNext(k: nat, i: nat, s: int, i': int, s': int)
    requires i < k && s == (i + 1) % k && i' == i + k && s' == s + k
    ensures Rounds(k, i + 1) ==
      Rounds(k, i) + [WEdge(i, s, None)] + [WEdge(i', s', None)] + [WEdge(i, s', None)] + [WEdge(i', s, None)]
  {
  }

  // ---------------------------------------------------------------- the edges

  /** Every edge of Rounds(k, i) comes from one of the rounds before i. */
  lemma {:induction false} RoundsMember(k: nat, i: nat, e: WEdge<int>) returns (r: nat)
    requires i <= k && e in Rounds(k, i)
    ensures r < i && e in Round(k, r)
  {
    if e in Round(k, i - 1) {
      r := i - 1;
    } else {
      r := RoundsMember(k, i - 1, e);
    }
  }

  /** Rounds(k, i) holds the edges of every round before i. */
  lemma {:induction false} RoundsContain(k: nat, i: nat, r: nat, e: WEdge<int>)
    requires r < i <= k && e in Round(k, r)
    ensures e in Rounds(k, i)
  {
    if r < i - 1 {
      RoundsContain(k, i - 1, r, e);
    }
  }

  /** Rounds(k, i) has four edges per round. */
  lemma {:induction false} RoundsLength(k: nat, i: nat)
    requires i <= k
    ensures |Rounds(k, i)| == 4 * i
  {
    if i > 0 {
      RoundsLength(k, i - 1);
    }
  }

  /** Within one round the four pairs differ, once the cycles have three nodes. */
  lemma RoundSimple(k: nat, i: nat)
    requires 3 <= k && i < k
    ensures Simple(Round(k, i))
  {
    SuccValue(i, k);
  }

  /** Two different rounds share no pair, once the cycles have three nodes. */
  lemma RoundsApart(k: nat, a: nat, b: nat, x: WEdge<int>, y: WEdge<int>)
    requires 3 <= k && a < b < k && x in Round(k, a) && y in Round(k, b)
    ensures !Joins(y, x.u, x.v)
  {
    SuccValue(a, k);
    SuccValue(b, k);
  }

  /** For k >= 3 no pair is added twice. */
  lemma {:induction false} RoundsSimple(k: nat, i: nat)
    requires 3 <= k && i <= k
    ensures Simple(Rounds(k, i))
  {
    if i > 0 {
      RoundsSimple(k, i - 1);
      RoundSimple(k, i - 1);
      forall x, y | x in Rounds(k, i - 1) && y in Round(k, i - 1) ensures !Joins(y, x.u, x.v) {
        var r := RoundsMember(k, i - 1, x);
        RoundsApart(k, r, i - 1, x, y);
      }
      SimpleConcat(Rounds(k, i - 1), Round(k, i - 1));
    }
  }

  /** For k >= 3 the graph has 4k edges: every add_edge adds a new pair. */
  lemma LavrovEdgeCount(k: nat)
    requires 3 <= k
    ensures LavrovEdges(k) == Rounds(k, k)
    ensures |LavrovEdges(k)| == 4 * k
  {
    RoundsSimple(k, k);
    AddAllFresh(Rounds(k, k));
    RoundsLength(k, k);
  }

  /**
   * For every k and i < k, the graph has the inner edge i - (i+1)%k, the outer
   * edge i+k - (i+1)%k+k, and the two crossing edges i - (i+1)%k+k and
   * i+k - (i+1)%k.
   */
  lemma LavrovHasEdges(k: nat, i: nat)
    requires i < k
    ensures var s, es := Succ(i, k), LavrovEdges(k);
      Find(es, i, s) < |es| && Find(es, i + k, s + k) < |es| &&
      Find(es, i, s + k) < |es| && Find(es, i + k, s) < |es|
  {
    var r := Round(k, i);
    RoundsContain(k, k, i, r[0]);
    RoundsContain(k, k, i, r[1]);
    RoundsContain(k, k, i, r[2]);
    RoundsContain(k, k, i, r[3]);
    AddAllHasMember([], Rounds(k, k), r[0]);
    AddAllHasMember([], Rounds(k, k), r[1]);
    AddAllHasMember([], Rounds(k, k), r[2]);
    AddAllHasMember([], Rounds(k, k), r[3]);
  }

  // ---------------------------------------------------------------- the nodes

  /** Every endpoint of Rounds(k, i) lies in 0 .. 2k-1. */
  lemma {:induction false} RoundEndsInRange(k: nat, i: nat, x: int)
    requires i <= k && x in Ends(Rounds(k, i))
    ensures 0 <= x < 2 * k
  {
    EndsMember(Rounds(k, i), x);
    var p :| 0 <= p < |Rounds(k, i)| && (x == Rounds(k, i)[p].u || x == Rounds(k, i)[p].v);
    var r := RoundsMember(k, i, Rounds(k, i)[p]);
    SuccValue(r, k);
  }

  /** Every node 0 .. 2k-1 is an endpoint of some edge. */
  lemma RangeInEnds(k: nat, x: int)
    requires 0 <= x < 2 * k
    ensures x in Ends(Rounds(k, k))
  {
    var i := if x < k then x else x - k;
    var e := Round(k, i)[if x < k then 0 else 1];
    RoundsContain(k, k, i, e);
    var p :| 0 <= p < |Rounds(k, k)| && Rounds(k, k)[p] == e;
    EndsMember(Rounds(k, k), x);
  }

  /** For k >= 1 the nodes are exactly 0 .. 2k-1. */
  lemma LavrovNodeMember(k: nat, x: int)
    requires 1 <= k
    ensures x in LavrovNodes(k) <==> 0 <= x < 2 * k
  {
    NodesOfSet(Seed(k), Rounds(k, k));
    assert x in LavrovNodes(k) <==> x in ToSet(LavrovNodes(k));
    if x in ToSet(LavrovNodes(k)) && x !in ToSet(Seed(k)) {
      RoundEndsInRange(k, k, x);
    }
    if 0 <= x < 2 * k {
      RangeInEnds(k, x);
    }
  }

  /**
   * For k >= 1 the graph has exactly the 2k nodes 0 .. 2k-1. For k == 0
   * add_nodes_from([0, -1]) leaves the two nodes 0 and -1 and no edge.
   */
  lemma LavrovNodeSet(k: nat)
    ensures 1 <= k ==> (forall x :: x in LavrovNodes(k) <==> 0 <= x < 2 * k) && |LavrovNodes(k)| == 2 * k
    ensures k == 0 ==> LavrovNodes(k) == [0, -1] && LavrovEdges(k) == []
  {
    if 1 <= k {
      var ns := LavrovNodes(k);
      forall x ensures x in ns <==> 0 <= x < 2 * k {
        LavrovNodeMember(k, x);
      }
      assert ToSet(ns) == ToSet(Range(0, 2 * k)) by {
        forall x ensures x in ToSet(ns) <==> x in ToSet(Range(0, 2 * k)) {
          LavrovNodeMember(k, x);
          InRange(0, 2 * k, x);
        }
      }
      NodesOfDistinct(Seed(k), Rounds(k, k));
      DistinctCard(ns);
      RangeDistinct(0, 2 * k);
      DistinctCard(Range(0, 2 * k));
    }
  }
}
