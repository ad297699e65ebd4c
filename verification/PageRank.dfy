/** Weighted PageRank with dangling mass, over exact reals. */
module PageRank {
  import opened RelationGraph
  import opened Sorting
  import opened Sums

  type Vector = Node -> real

  datatype Result = Ok(ranks: map<Node, real>) | ValueError

  /** The total weight leaving `s`. */
  function OutTotal(edges: seq<Edge>, s: Node): real {
    if edges == [] then 0.0
    else OutTotal(edges[..|edges| - 1], s) + (if edges[|edges| - 1].source == s then edges[|edges| - 1].weight else 0.0)
  }

  lemma {:induction false} OutTotalNonNegative(edges: seq<Edge>, s: Node)
    ensures OutTotal(edges, s) >= 0.0
  {
    if edges != [] {
      OutTotalNonNegative(edges[..|edges| - 1], s);
    }
  }

  /** A ranking problem: its distinct nodes, its edges and the damping factor. */
  datatype Network = Network(nodes: seq<Node>, edges: seq<Edge>, damping: real) {
    ghost predicate Valid() {
      && nodes != [] && Distinct(nodes) && 0.0 < damping < 1.0
      && (forall e :: e in edges ==> e.source in nodes && e.target in nodes)
    }

    function Total(s: Node): real {
      OutTotal(edges, s)
    }

    /** The share of a source's rank that one edge carries. */
    function Share(e: Edge): real {
      if Total(e.source) > 0.0 then e.weight / Total(e.source) else 0.0
    }

    function Carried(x: Vector, e: Edge): real {
      x(e.source) * Share(e)
    }

    /** What `n` receives from the first `k` edges. */
    function Inflow(x: Vector, n: Node, k: nat): real
      requires k <= |edges|
    {
      if k == 0 then 0.0
      else Inflow(x, n, k - 1) + (if edges[k - 1].target == n then Carried(x, edges[k - 1]) else 0.0)
    }

    /** The rank held by nodes that pass nothing on. */
    function DanglingPart(x: Vector): Vector {
      n => if Total(n) == 0.0 then x(n) else 0.0
    }

    function Dangling(x: Vector): real {
      Sum(nodes, DanglingPart(x))
    }

    /** One node's part of the whole. */
    function Unit(): real {
      if nodes == [] then 0.0 else 1.0 / |nodes| as real
    }

    /** The linear part of one step. */
    function Flow(x: Vector): Vector {
      var even := Unit() * Dangling(x);
      n => damping * (even + Inflow(x, n, |edges|))
    }

    /** The PageRank equation: teleport, an equal share of the dangling mass, and weighted inflow. */
    function Step(x: Vector): Vector {
      n => Unit() * (1.0 - damping) + Flow(x)(n)
    }

    function Iterate(k: nat): Vector {
      if k == 0 then n => Unit() else Step(Iterate(k - 1))
    }

    function AbsDiff(a: Vector, b: Vector): Vector {
      n => Abs(a(n) - b(n))
    }

    /** The L1 distance. */
    function Distance(a: Vector, b: Vector): real {
      Sum(nodes, AbsDiff(a, b))
    }

    function Delta(k: nat): real {
      Distance(Iterate(k + 1), Iterate(k))
    }

    ghost predicate Distribution(x: Vector) {
      (forall n :: n in nodes ==> x(n) > 0.0) && Sum(nodes, x) == 1.0
    }

    ghost predicate Stationary(x: Vector) {
      forall n :: n in nodes ==> Step(x)(n) == x(n)
    }

    /** Iteration stops after `k` steps: at the limit, or as soon as a change is within the tolerance. */
    ghost predicate StopsAt(k: nat, limit: int, tolerance: real) {
      && (forall j: nat :: j + 1 < k ==> Delta(j) > tolerance)
      && (k == (if limit < 0 then 0 else limit) || (0 < k < limit && Delta(k - 1) <= tolerance))
    }
  }

  // ---- mass is conserved -------------------------------------------------

  /** What `s` sends along the first `k` edges. */
  ghost function Sent(net: Network, x: Vector, k: nat): Vector
    requires k <= |net.edges|
  {
    s => if net.Total(s) > 0.0 then x(s) * (OutTotal(net.edges[..k], s) / net.Total(s)) else 0.0
  }

  ghost function Received(net: Network, x: Vector, k: nat): Vector
    requires k <= |net.edges|
  {
    n => net.Inflow(x, n, k)
  }

  lemma ShareAdds(x: real, a: real, b: real, t: real)
    requires t > 0.0
    ensures x * ((a + b) / t) == x * (a / t) + x * (b / t)
  {
    assert (a + b) / t == a / t + b / t;
  }

  lemma OutTotalGrows(edges: seq<Edge>, k: nat, s: Node)
    requires 0 < k <= |edges|
    ensures OutTotal(edges[..k], s) == OutTotal(edges[..k - 1], s) + (if edges[k - 1].source == s then edges[k - 1].weight else 0.0)
  {
    assert edges[..k][..k - 1] == edges[..k - 1];
  }

  lemma SentGrows(net: Network, x: Vector, k: nat, s: Node)
    requires 0 < k <= |net.edges|
    ensures var e := net.edges[k - 1];
            Sent(net, x, k)(s) == Sent(net, x, k - 1)(s) + (if s == e.source then net.Carried(x, e) else 0.0)
  {
    hide OutTotal;
    OutTotalGrows(net.edges, k, s);
    var e := net.edges[k - 1];
    if s == e.source && net.Total(s) > 0.0 {
      ShareAdds(x(s), OutTotal(net.edges[..k - 1], s), e.weight, net.Total(s));
    }
  }

  lemma ReceivedGrows(net: Network, x: Vector, k: nat, n: Node)
    requires 0 < k <= |net.edges|
    ensures var e := net.edges[k - 1];
            Received(net, x, k)(n) == Received(net, x, k - 1)(n) + (if n == e.target then net.Carried(x, e) else 0.0)
  {}

  lemma {:induction false} SentIsReceived(net: Network, x: Vector, k: nat)
    requires net.Valid() && k <= |net.edges|
    ensures Sum(net.nodes, Received(net, x, k)) == Sum(net.nodes, Sent(net, x, k))
  {
    if k == 0 {
      SumAgree(net.nodes, Received(net, x, 0), Sent(net, x, 0));
    } else {
      SentIsReceived(net, x, k - 1);
      SentIsReceivedStep(net, x, k);
    }
  }

  lemma SentIsReceivedStep(net: Network, x: Vector, k: nat)
    requires net.Valid() && 0 < k <= |net.edges|
    requires Sum(net.nodes, Received(net, x, k - 1)) == Sum(net.nodes, Sent(net, x, k - 1))
    ensures Sum(net.nodes, Received(net, x, k)) == Sum(net.nodes, Sent(net, x, k))
  {
    hide Network.Carried, Sent, Received;
    var e := net.edges[k - 1];
    var c := net.Carried(x, e);
    assert e in net.edges;
    forall n | n in net.nodes
      ensures Received(net, x, k)(n) == Received(net, x, k - 1)(n) + (if n == e.target then c else 0.0)
      ensures Sent(net, x, k)(n) == Sent(net, x, k - 1)(n) + (if n == e.source then c else 0.0)
    {
      ReceivedGrows(net, x, k, n);
      SentGrows(net, x, k, n);
    }
    SumBump(net.nodes, Received(net, x, k), Received(net, x, k - 1), e.target, c);
    SumBump(net.nodes, Sent(net, x, k), Sent(net, x, k - 1), e.source, c);
  }

  lemma WholeShare(x: real, t: real)
    requires t > 0.0
    ensures x * (t / t) == x
  {
    assert t / t == 1.0;
  }

  lemma SentOrDangling(net: Network, x: Vector, n: Node)
    ensures x(n) == Sent(net, x, |net.edges|)(n) + net.DanglingPart(x)(n)
  {
    assert net.edges[..|net.edges|] == net.edges;
    OutTotalNonNegative(net.edges, n);
    if net.Total(n) > 0.0 {
      WholeShare(x(n), net.Total(n));
    }
  }

  /** Everything that is not dangling is sent, and everything sent is received. */
  lemma ReceivedPlusDangling(net: Network, x: Vector)
    requires net.Valid()
    ensures Sum(net.nodes, Received(net, x, |net.edges|)) + net.Dangling(x) == Sum(net.nodes, x)
  {
    hide Sent, Received;
    var all := |net.edges|;
    SentIsReceived(net, x, all);
    forall n | n in net.nodes ensures x(n) == Sent(net, x, all)(n) + net.DanglingPart(x)(n) {
      SentOrDangling(net, x, n);
    }
    SumAdd(net.nodes, x, Sent(net, x, all), net.DanglingPart(x));
  }

  lemma UnitsMakeOne(net: Network)
    requires net.Valid()
    ensures |net.nodes| as real * net.Unit() == 1.0 && net.Unit() > 0.0
  {}

  lemma SpreadEvenly(count: real, unit: real, mass: real)
    requires count * unit == 1.0
    ensures count * (unit * mass) == mass
  {
    assert count * (unit * mass) == (count * unit) * mass;
  }

  lemma FlowAt(net: Network, x: Vector, n: Node)
    ensures net.Flow(x)(n) == net.damping * (net.Unit() * net.Dangling(x) + net.Inflow(x, n, |net.edges|))
  {}

  /** What a node gains before damping. */
  ghost function Gained(net: Network, x: Vector): Vector {
    var even := net.Unit() * net.Dangling(x);
    n => even + net.Inflow(x, n, |net.edges|)
  }

  lemma GainedAt(net: Network, x: Vector, n: Node)
    ensures Gained(net, x)(n) == net.Unit() * net.Dangling(x) + net.Inflow(x, n, |net.edges|)
  {}

  lemma GainedConservesMass(net: Network, x: Vector)
    requires net.Valid()
    ensures Sum(net.nodes, Gained(net, x)) == Sum(net.nodes, x)
  {
    hide Network.Dangling, Network.Unit, Network.Inflow, Network.Valid, Sum;
    var even := net.Unit() * net.Dangling(x);
    var evenly: Vector := n => even;
    ReceivedPlusDangling(net, x);
    SumConstant(net.nodes, evenly, even);
    SumAdd(net.nodes, Gained(net, x), evenly, Received(net, x, |net.edges|));
    UnitsMakeOne(net);
    SpreadEvenly(|net.nodes| as real, net.Unit(), net.Dangling(x));
  }

  /** One application of the linear part scales the total mass by the damping factor. */
  lemma FlowConservesMass(net: Network, x: Vector)
    requires net.Valid()
    ensures Sum(net.nodes, net.Flow(x)) == net.damping * Sum(net.nodes, x)
  {
    hide *;
    GainedConservesMass(net, x);
    forall n ensures net.Flow(x)(n) == net.damping * Gained(net, x)(n) {
      FlowAt(net, x, n);
      GainedAt(net, x, n);
    }
    SumScale(net.nodes, net.Flow(x), net.damping, Gained(net, x));
  }

  lemma {:induction false} InflowNonNegative(net: Network, x: Vector, n: Node, k: nat)
    requires net.Valid() && k <= |net.edges| && forall m :: m in net.nodes ==> x(m) >= 0.0
    ensures net.Inflow(x, n, k) >= 0.0
  {
    if k > 0 {
      InflowNonNegative(net, x, n, k - 1);
      var e := net.edges[k - 1];
      assert e in net.edges;
      ShareNonNegative(net, e);
      ProductNonNegative(x(e.source), net.Share(e));
    }
  }

  lemma ProductNonNegative(x: real, y: real)
    requires x >= 0.0 && y >= 0.0
    ensures x * y >= 0.0
  {}

  lemma FlowNonNegative(net: Network, x: Vector, n: Node)
    requires net.Valid() && forall m :: m in net.nodes ==> x(m) >= 0.0
    ensures net.Flow(x)(n) >= 0.0
  {
    var zero: Vector := m => 0.0;
    SumConstant(net.nodes, zero, 0.0);
    SumMonotone(net.nodes, zero, net.DanglingPart(x));
    UnitsMakeOne(net);
    ProductNonNegative(net.Unit(), net.Dangling(x));
    InflowNonNegative(net, x, n, |net.edges|);
    ProductNonNegative(net.damping, net.Unit() * net.Dangling(x) + net.Inflow(x, n, |net.edges|));
  }

  /** A step keeps every rank positive and the total at one. */
  lemma StepKeepsDistribution(net: Network, x: Vector)
    requires net.Valid() && net.Distribution(x)
    ensures net.Distribution(net.Step(x))
  {
    hide Network.Flow;
    var teleport := net.Unit() * (1.0 - net.damping);
    UnitsMakeOne(net);
    assert teleport > 0.0;
    forall n | n in net.nodes ensures net.Step(x)(n) > 0.0 {
      FlowNonNegative(net, x, n);
    }
    var base: Vector := n => teleport;
    SumConstant(net.nodes, base, teleport);
    SumAdd(net.nodes, net.Step(x), base, net.Flow(x));
    FlowConservesMass(net, x);
    SpreadEvenly(|net.nodes| as real, net.Unit(), 1.0 - net.damping);
  }

  /** Every iterate is a probability distribution with full support. */
  lemma {:induction false} IteratesAreDistributions(net: Network, k: nat)
    requires net.Valid()
    ensures net.Distribution(net.Iterate(k))
  {
    if k == 0 {
      UnitsMakeOne(net);
      SumConstant(net.nodes, net.Iterate(0), net.Unit());
    } else {
      IteratesAreDistributions(net, k - 1);
      StepKeepsDistribution(net, net.Iterate(k - 1));
    }
  }

  // ---- the step is a contraction -----------------------------------------

  lemma AbsScales(x: real, y: real, c: real)
    requires c >= 0.0
    ensures Abs(x * c - y * c) == Abs(x - y) * c
  {
    assert x * c - y * c == (x - y) * c;
    if x < y {
      assert (x - y) * c <= 0.0;
    } else {
      assert (x - y) * c >= 0.0;
    }
  }

  lemma {:induction false} InflowOfDifference(net: Network, a: Vector, b: Vector, n: Node, k: nat)
    requires net.Valid() && k <= |net.edges|
    ensures Abs(net.Inflow(a, n, k) - net.Inflow(b, n, k)) <= net.Inflow(net.AbsDiff(a, b), n, k)
  {
    hide Network.Carried;
    if k > 0 {
      var e := net.edges[k - 1];
      InflowOfDifference(net, a, b, n, k - 1);
      CarriedDifference(net, a, b, e);
      ReceivedGrows(net, a, k, n);
      ReceivedGrows(net, b, k, n);
      ReceivedGrows(net, net.AbsDiff(a, b), k, n);
    }
  }

  lemma ShareNonNegative(net: Network, e: Edge)
    ensures net.Share(e) >= 0.0
  {}

  lemma CarriedDifference(net: Network, a: Vector, b: Vector, e: Edge)
    ensures Abs(net.Carried(a, e) - net.Carried(b, e)) == net.Carried(net.AbsDiff(a, b), e)
  {
    hide Network.Share;
    ShareNonNegative(net, e);
    AbsScales(a(e.source), b(e.source), net.Share(e));
  }

  lemma ScaledBound(u: real, v: real, w: real, c: real)
    requires c >= 0.0 && Abs(u - v) <= w
    ensures Abs(c * u - c * v) <= c * w
  {
    AbsScales(u, v, c);
    assert Abs(u - v) * c <= w * c;
  }

  lemma DanglingDifference(net: Network, a: Vector, b: Vector)
    ensures Abs(net.Dangling(a) - net.Dangling(b)) <= net.Dangling(net.AbsDiff(a, b))
  {
    SumOfDifference(net.nodes, net.DanglingPart(a), net.DanglingPart(b), net.DanglingPart(net.AbsDiff(a, b)));
  }

  lemma ValidDamping(net: Network)
    requires net.Valid()
    ensures 0.0 < net.damping < 1.0
  {}

  lemma FlowOfDifference(net: Network, a: Vector, b: Vector, n: Node)
    requires net.Valid()
    ensures Abs(net.Flow(a)(n) - net.Flow(b)(n)) <= net.Flow(net.AbsDiff(a, b))(n)
  {
    hide *;
    var c := net.AbsDiff(a, b);
    var p, q, r := net.Dangling(a), net.Dangling(b), net.Dangling(c);
    DanglingDifference(net, a, b);
    UnitsMakeOne(net);
    InflowOfDifference(net, a, b, n, |net.edges|);
    ValidDamping(net);
    FlowAt(net, a, n);
    FlowAt(net, b, n);
    FlowAt(net, c, n);
    CombineDifference(net.damping, net.Unit(), p, q, r,
      net.Inflow(a, n, |net.edges|), net.Inflow(b, n, |net.edges|), net.Inflow(c, n, |net.edges|),
      net.Flow(a)(n), net.Flow(b)(n), net.Flow(c)(n));
  }

  lemma AddBound(p: real, q: real, r: real, i: real, j: real, k: real)
    requires Abs(p - q) <= r && Abs(i - j) <= k
    ensures Abs((p + i) - (q + j)) <= r + k
  {}

  lemma CombineDifference(d: real, unit: real, p: real, q: real, r: real, i: real, j: real, k: real, fa: real, fb: real, fc: real)
    requires d >= 0.0 && unit >= 0.0 && Abs(p - q) <= r && Abs(i - j) <= k
    requires fa == d * (unit * p + i) && fb == d * (unit * q + j) && fc == d * (unit * r + k)
    ensures Abs(fa - fb) <= fc
  {
    ScaledBound(p, q, r, unit);
    AddBound(unit * p, unit * q, unit * r, i, j, k);
    ScaledBound(unit * p + i, unit * q + j, unit * r + k, d);
  }

  /** The step shrinks the L1 distance of any two rank vectors by the damping factor. */
  lemma StepContracts(net: Network, a: Vector, b: Vector)
    requires net.Valid()
    ensures net.Distance(net.Step(a), net.Step(b)) <= net.damping * net.Distance(a, b)
  {
    hide Network.Flow;
    var c := net.AbsDiff(a, b);
    forall n | n in net.nodes ensures net.AbsDiff(net.Step(a), net.Step(b))(n) <= net.Flow(c)(n) {
      FlowOfDifference(net, a, b, n);
    }
    SumMonotone(net.nodes, net.AbsDiff(net.Step(a), net.Step(b)), net.Flow(c));
    FlowConservesMass(net, c);
  }

  /** Each change is at most `damping` times the previous one. */
  lemma DeltaContracts(net: Network, k: nat)
    requires net.Valid()
    ensures net.Delta(k + 1) <= net.damping * net.Delta(k)
  {
    StepContracts(net, net.Iterate(k + 1), net.Iterate(k));
  }

  function Power(x: real, k: nat): real {
    if k == 0 then 1.0 else x * Power(x, k - 1)
  }

  lemma DistributionsWithinTwo(net: Network, u: Vector, p: Vector)
    requires net.Valid() && net.Distribution(u) && net.Distribution(p)
    ensures net.Distance(u, p) <= 2.0
  {
    var both: Vector := n => u(n) + p(n);
    SumAdd(net.nodes, both, u, p);
    SumMonotone(net.nodes, net.AbsDiff(u, p), both);
  }

  lemma DistanceToStationary(net: Network, x: Vector, p: Vector)
    requires net.Valid() && net.Stationary(p)
    ensures net.Distance(net.Step(x), p) <= net.damping * net.Distance(x, p)
  {
    StepContracts(net, x, p);
    SumAgree(net.nodes, net.AbsDiff(net.Step(x), p), net.AbsDiff(net.Step(x), net.Step(p)));
  }

  lemma ScaleLe(d: real, a: real, b: real)
    requires d >= 0.0 && a <= b
    ensures d * a <= d * b
  {}

  /** A stationary distribution attracts the iterates geometrically. */
  lemma {:induction false} IteratesConverge(net: Network, p: Vector, k: nat)
    requires net.Valid() && net.Distribution(p) && net.Stationary(p)
    ensures net.Distance(net.Iterate(k), p) <= Power(net.damping, k) * 2.0
  {
    if k == 0 {
      IteratesAreDistributions(net, 0);
      DistributionsWithinTwo(net, net.Iterate(0), p);
    } else {
      IteratesConverge(net, p, k - 1);
      DistanceToStationary(net, net.Iterate(k - 1), p);
      ScaleLe(net.damping, net.Distance(net.Iterate(k - 1), p), Power(net.damping, k - 1) * 2.0);
    }
  }

  lemma TriangleInequality(net: Network, a: Vector, b: Vector, c: Vector)
    ensures net.Distance(a, c) <= net.Distance(b, a) + net.Distance(b, c)
  {
    var both: Vector := n => net.AbsDiff(b, a)(n) + net.AbsDiff(b, c)(n);
    SumAdd(net.nodes, both, net.AbsDiff(b, a), net.AbsDiff(b, c));
    SumMonotone(net.nodes, net.AbsDiff(a, c), both);
  }

  /** Stopping on a small change bounds the error: after a change `delta` the new iterate is within
      damping / (1 - damping) * delta of any stationary vector. */
  lemma StoppingError(net: Network, p: Vector, k: nat)
    requires net.Valid() && net.Stationary(p)
    ensures (1.0 - net.damping) * net.Distance(net.Iterate(k + 1), p) <= net.damping * net.Delta(k)
  {
    var before, now := net.Iterate(k), net.Iterate(k + 1);
    DistanceToStationary(net, before, p);
    TriangleInequality(net, before, now, p);
    ScaleLe(net.damping, net.Distance(before, p), net.Delta(k) + net.Distance(now, p));
  }

  lemma DistanceNonNegative(net: Network, a: Vector, b: Vector)
    ensures net.Distance(a, b) >= 0.0
  {
    SumConstant(net.nodes, _ => 0.0, 0.0);
    SumMonotone(net.nodes, _ => 0.0, net.AbsDiff(a, b));
  }

  lemma DistanceIsSymmetric(net: Network, a: Vector, b: Vector)
    ensures net.Distance(a, b) == net.Distance(b, a)
  {
    SumAgree(net.nodes, net.AbsDiff(a, b), net.AbsDiff(b, a));
  }

  lemma DistanceBoundsNode(net: Network, a: Vector, b: Vector, n: Node)
    requires n in net.nodes
    ensures Abs(a(n) - b(n)) <= net.Distance(a, b)
  {
    var i :| 0 <= i < |net.nodes| && net.nodes[i] == n;
    var others := net.nodes[..i] + net.nodes[i + 1..];
    SumRemove(net.nodes, net.AbsDiff(a, b), i);
    SumConstant(others, _ => 0.0, 0.0);
    SumMonotone(others, _ => 0.0, net.AbsDiff(a, b));
  }

  /** The changes shrink geometrically. */
  lemma {:induction false} DeltaShrinks(net: Network, k: nat)
    requires net.Valid()
    ensures net.Delta(k) <= Power(net.damping, k) * net.Delta(0)
  {
    if k > 0 {
      DeltaShrinks(net, k - 1);
      DeltaContracts(net, k - 1);
      ScaleLe(net.damping, net.Delta(k - 1), Power(net.damping, k - 1) * net.Delta(0));
    }
  }

  lemma NextGap(d: real, p: real, q: real, first: real, near: real, change: real, far: real)
    requires d <= 1.0 && (1.0 - d) * near <= (p - q) * first && change <= q * first && far <= near + change
    ensures (1.0 - d) * far <= (p - d * q) * first
  {
    ScaleLe(1.0 - d, far, near + change);
    ScaleLe(1.0 - d, change, q * first);
  }

  /** The distance the iterates still cover after the k-th is what is left of a geometric series. */
  lemma {:induction false} TravelBound(net: Network, k: nat, m: nat)
    requires net.Valid()
    ensures (1.0 - net.damping) * net.Distance(net.Iterate(k + m), net.Iterate(k))
         <= (Power(net.damping, k) - Power(net.damping, k + m)) * net.Delta(0)
  {
    hide Network.Distance, Network.Iterate, Network.AbsDiff;
    var here := net.Iterate(k);
    if m == 0 {
      NoDistance(net, here);
    } else {
      var near, far := net.Iterate(k + m - 1), net.Iterate(k + m);
      TravelBound(net, k, m - 1);
      DeltaShrinks(net, k + m - 1);
      TriangleInequality(net, far, near, here);
      DistanceIsSymmetric(net, near, far);
      NextGap(net.damping, Power(net.damping, k), Power(net.damping, k + m - 1), net.Delta(0),
              net.Distance(near, here), net.Delta(k + m - 1), net.Distance(far, here));
    }
  }

  lemma NoDistance(net: Network, a: Vector)
    ensures net.Distance(a, a) == 0.0
  {
    SumConstant(net.nodes, net.AbsDiff(a, a), 0.0);
  }

  lemma PowerNonNegative(x: real, k: nat)
    requires x >= 0.0
    ensures Power(x, k) >= 0.0
  {}

  /** The iterates converge, whatever they converge to: (1 - damping) times the distance between the k-th iterate and any
      later one is at most damping^k times the first change. */
  lemma IteratesAreCauchy(net: Network, k: nat, m: nat)
    requires net.Valid()
    ensures (1.0 - net.damping) * net.Distance(net.Iterate(k + m), net.Iterate(k)) <= Power(net.damping, k) * net.Delta(0)
  {
    hide Network.Distance, Network.Iterate;
    TravelBound(net, k, m);
    PowerNonNegative(net.damping, k + m);
    DistanceNonNegative(net, net.Iterate(1), net.Iterate(0));
    ProductNonNegative(Power(net.damping, k + m), net.Delta(0));
  }

  /** There is at most one stationary vector. */
  lemma StationaryIsUnique(net: Network, p: Vector, q: Vector, n: Node)
    requires net.Valid() && net.Stationary(p) && net.Stationary(q) && n in net.nodes
    ensures p(n) == q(n)
  {
    DistanceToStationary(net, q, p);
    SumAgree(net.nodes, net.AbsDiff(net.Step(q), p), net.AbsDiff(q, p));
    assert net.Distance(net.Step(q), p) == net.Distance(q, p);
    ShrunkToNothing(net.damping, net.Distance(net.Step(q), p), net.Distance(q, p));
    DistanceBoundsNode(net, q, p, n);
  }

  lemma ShrunkToNothing(d: real, shrunk: real, x: real)
    requires d < 1.0 && shrunk <= d * x && shrunk == x
    ensures x <= 0.0
  {
    if x > 0.0 {
      ProductPositive(1.0 - d, x);
    }
  }

  lemma ProductPositive(x: real, y: real)
    requires x > 0.0 && y > 0.0
    ensures x * y > 0.0
  {}

  // ---- the loops -----------------------------------------------------------

  ghost predicate AreEndPoints(nodes: seq<Node>, edges: seq<Edge>) {
    forall n :: n in nodes <==> exists e :: e in edges && (e.source == n || e.target == n)
  }

  lemma {:induction false} SortedDistinct(nodes: seq<Node>)
    requires Distinct(nodes)
    ensures Distinct(Sort(nodes, TextLe)) && IsSorted(Sort(nodes, TextLe), TextLe)
    ensures forall n :: n in Sort(nodes, TextLe) <==> n in nodes
  {
    TextLeOrder();
    SortSorted(nodes, TextLe);
    SortMembers(nodes, TextLe);
    SortContents(nodes, TextLe);
    DistinctContents(nodes, Sort(nodes, TextLe));
  }

  lemma TextLeOrder()
    ensures TotalPreorder(TextLe)
  {
    forall a, b ensures TextLe(a, b) || TextLe(b, a) {
      TextLeTotal(a, b);
    }
    forall a, b, c | TextLe(a, b) && TextLe(b, c) ensures TextLe(a, c) {
      TextLeTransitive(a, b, c);
    }
  }

  lemma DistinctContents(a: seq<Node>, b: seq<Node>)
    requires Distinct(a) && multiset(a) == multiset(b)
    ensures Distinct(b)
  {
    forall i, j | 0 <= i < j < |b| ensures b[i] != b[j] {
      OneEach(a, b[i]);
      assert b == b[..i] + [b[i]] + b[i + 1..j] + [b[j]] + b[j + 1..];
    }
  }

  lemma {:induction false} OneEach(a: seq<Node>, n: Node)
    requires Distinct(a)
    ensures multiset(a)[n] <= 1
  {
    if a != [] {
      OneEach(a[1..], n);
      assert a == [a[0]] + a[1..];
      assert n == a[0] ==> n !in a[1..];
    }
  }

  /** Every end point once, in text order. */
  method EndPoints(edges: seq<Edge>) returns (nodes: seq<Node>)
    ensures Distinct(nodes) && AreEndPoints(nodes, edges) && IsSorted(nodes, TextLe)
  {
    var found: seq<Node> := [];
    for i := 0 to |edges|
      invariant Distinct(found)
      invariant forall n :: n in found <==> exists j :: 0 <= j < i && (edges[j].source == n || edges[j].target == n)
    {
      if edges[i].source !in found {
        found := found + [edges[i].source];
      }
      if edges[i].target !in found {
        found := found + [edges[i].target];
      }
    }
    assert forall j :: 0 <= j < |edges| ==> edges[j] in edges;
    assert AreEndPoints(found, edges);
    SortedDistinct(found);
    nodes := Sort(found, TextLe);
  }

  /** The positive edges in order, grouped by source, with each source's total. */
  method GroupEdges(net: Network) returns (outgoing: map<Node, seq<Edge>>, totals: map<Node, real>)
    ensures forall s :: At(totals, s) == net.Total(s)
    ensures forall s :: OutOf(outgoing, s) == Positive(net.edges, s)
  {
    outgoing, totals := map[], map[];
    for i := 0 to |net.edges|
      invariant forall s :: At(totals, s) == OutTotal(net.edges[..i], s)
      invariant forall s :: OutOf(outgoing, s) == Positive(net.edges[..i], s)
    {
      var e := net.edges[i];
      assert net.edges[..i + 1][..i] == net.edges[..i];
      if e.weight > 0.0 {
        outgoing := outgoing[e.source := OutOf(outgoing, e.source) + [e]];
        totals := totals[e.source := At(totals, e.source) + e.weight];
      }
    }
    assert net.edges[..|net.edges|] == net.edges;
  }

  function OutOf(outgoing: map<Node, seq<Edge>>, s: Node): seq<Edge> {
    if s in outgoing then outgoing[s] else []
  }

  /** The edges of positive weight that leave `s`. */
  function Positive(edges: seq<Edge>, s: Node): seq<Edge> {
    if edges == [] then []
    else
      var e := edges[|edges| - 1];
      var before := Positive(edges[..|edges| - 1], s);
      if e.source == s && e.weight > 0.0 then before + [e] else before
  }

  /** The teleport share plus an equal share of the damped dangling mass. */
  function EvenPart(net: Network, mass: real): real {
    var count := |net.nodes| as real;
    if net.nodes == [] then 0.0 else (1.0 - net.damping) / count + net.damping * mass / count
  }

  /** The damped rank that one edge delivers. */
  function Delivered(net: Network, x: Vector, e: Edge): real {
    net.damping * net.Carried(x, e)
  }

  /** What `n` is delivered along `out`. */
  function Along(net: Network, x: Vector, n: Node, out: seq<Edge>): real {
    if out == [] then 0.0
    else
      var e := out[|out| - 1];
      Along(net, x, n, out[..|out| - 1]) + (if e.target == n then Delivered(net, x, e) else 0.0)
  }

  /** What `n` is delivered by the given sources, taken one after the other. */
  function FromSources(net: Network, x: Vector, n: Node, sources: seq<Node>, edges: seq<Edge>): real {
    if sources == [] then 0.0
    else FromSources(net, x, n, sources[..|sources| - 1], edges) + Along(net, x, n, Positive(edges, sources[|sources| - 1]))
  }

  lemma AlongAppend(net: Network, x: Vector, n: Node, out: seq<Edge>, e: Edge)
    ensures Along(net, x, n, out + [e]) == Along(net, x, n, out) + (if e.target == n then Delivered(net, x, e) else 0.0)
  {
    assert (out + [e])[..|out|] == out;
  }

  lemma FromSourcesAppend(net: Network, x: Vector, n: Node, sources: seq<Node>, s: Node, edges: seq<Edge>)
    ensures FromSources(net, x, n, sources + [s], edges) == FromSources(net, x, n, sources, edges) + Along(net, x, n, Positive(edges, s))
  {
    assert (sources + [s])[..|sources|] == sources;
  }

  lemma PositiveAppend(edges: seq<Edge>, e: Edge, s: Node)
    ensures Positive(edges + [e], s) == if e.source == s && e.weight > 0.0 then Positive(edges, s) + [e] else Positive(edges, s)
  {
    assert (edges + [e])[..|edges|] == edges;
  }

  lemma NothingDelivered(net: Network, x: Vector, e: Edge)
    requires e.weight == 0.0 || net.Total(e.source) <= 0.0
    ensures Delivered(net, x, e) == 0.0
  {
    assert net.Share(e) == 0.0;
  }

  /** One more edge adds its contribution exactly once, whichever the order of the sources. */
  lemma {:induction false} FromSourcesGrows(net: Network, x: Vector, n: Node, sources: seq<Node>, edges: seq<Edge>, e: Edge)
    requires Distinct(sources)
    ensures FromSources(net, x, n, sources, edges + [e]) == FromSources(net, x, n, sources, edges) +
            (if e.source in sources && e.target == n then Delivered(net, x, e) else 0.0)
  {
    hide Delivered, Positive;
    if sources != [] {
      var last := sources[|sources| - 1];
      FromSourcesGrows(net, x, n, sources[..|sources| - 1], edges, e);
      assert sources == sources[..|sources| - 1] + [last];
      PositiveAppend(edges, e, last);
      if last == e.source {
        if e.weight > 0.0 {
          AlongAppend(net, x, n, Positive(edges, last), e);
        } else {
          NothingDelivered(net, x, e);
        }
      }
    }
  }

  lemma Distribute(d: real, a: real, b: real)
    ensures d * (a + b) == d * a + d * b
  {}

  lemma InflowGrows(net: Network, x: Vector, n: Node, k: nat)
    requires 0 < k <= |net.edges|
    ensures var e := net.edges[k - 1];
            net.damping * net.Inflow(x, n, k) == net.damping * net.Inflow(x, n, k - 1) + (if e.target == n then Delivered(net, x, e) else 0.0)
  {
    hide Network.Carried;
    Distribute(net.damping, net.Inflow(x, n, k - 1), net.Carried(x, net.edges[k - 1]));
  }

  /** Going through the sources one by one visits every edge: the grouped sum is the damped inflow. */
  lemma {:induction false} FromSourcesIsInflow(net: Network, x: Vector, n: Node, k: nat)
    requires net.Valid() && k <= |net.edges|
    ensures FromSources(net, x, n, net.nodes, net.edges[..k]) == net.damping * net.Inflow(x, n, k)
  {
    hide Delivered, FromSources;
    if k == 0 {
      NoEdgesNoFlow(net, x, n, net.nodes);
    } else {
      var e := net.edges[k - 1];
      assert e in net.edges;
      FromSourcesIsInflow(net, x, n, k - 1);
      FromSourcesGrows(net, x, n, net.nodes, net.edges[..k - 1], e);
      InflowGrows(net, x, n, k);
      assert net.edges[..k] == net.edges[..k - 1] + [e];
    }
  }

  lemma {:induction false} NoEdgesNoFlow(net: Network, x: Vector, n: Node, sources: seq<Node>)
    ensures FromSources(net, x, n, sources, []) == 0.0
  {
    if sources != [] {
      NoEdgesNoFlow(net, x, n, sources[..|sources| - 1]);
    }
  }

  lemma {:induction false} PositiveEdges(edges: seq<Edge>, s: Node, e: Edge)
    requires e in Positive(edges, s)
    ensures e in edges && e.source == s
  {
    var rest, last := edges[..|edges| - 1], edges[|edges| - 1];
    assert edges == rest + [last];
    PositiveAppend(rest, last, s);
    if e in Positive(rest, s) {
      PositiveEdges(rest, s, e);
    }
  }

  lemma {:induction false} SilentSource(net: Network, x: Vector, n: Node, s: Node, edges: seq<Edge>)
    requires net.Total(s) <= 0.0
    ensures Along(net, x, n, Positive(edges, s)) == 0.0
  {
    if edges != [] {
      var rest, e := edges[..|edges| - 1], edges[|edges| - 1];
      SilentSource(net, x, n, s, rest);
      assert edges == rest + [e];
      PositiveAppend(rest, e, s);
      AlongAppend(net, x, n, Positive(rest, s), e);
      if e.source == s {
        NothingDelivered(net, x, e);
      }
    }
  }

  /** The part of a contribution that goes along an edge. */
  function Portion(contribution: real, weight: real, total: real): real
    requires total != 0.0
  {
    contribution * weight / total
  }

  lemma DeliveredIs(net: Network, ranks: map<Node, real>, e: Edge, contribution: real, total: real)
    requires total == net.Total(e.source) > 0.0 && contribution == net.damping * At(ranks, e.source)
    ensures Portion(contribution, e.weight, total) == Delivered(net, Of(ranks), e)
  {
    hide OutTotal;
    var d, r, w, t := net.damping, At(ranks, e.source), e.weight, net.Total(e.source);
    assert d * r * w / t == (d * r) * (w / t);
    assert (d * r) * (w / t) == d * (r * (w / t));
  }

  lemma TargetIsNode(net: Network, s: Node, e: Edge)
    requires net.Valid() && e in Positive(net.edges, s)
    ensures e.target in net.nodes && e.source == s
  {
    PositiveEdges(net.edges, s, e);
  }

  /** The inner loop: `source` passes its damped rank along its edges. */
  method SpreadFrom(net: Network, out: seq<Edge>, total: real, ranks: map<Node, real>, source: Node, before: map<Node, real>)
    returns (next: map<Node, real>)
    requires net.Valid() && before.Keys == (set n | n in net.nodes)
    requires out == Positive(net.edges, source) && total == net.Total(source)
    ensures next.Keys == before.Keys
    ensures forall n :: n in net.nodes ==> next[n] == before[n] + Along(net, Of(ranks), n, out)
  {
    hide *;
    next := before;
    if total <= 0.0 {
      forall n ensures Along(net, Of(ranks), n, out) == 0.0 {
        SilentSource(net, Of(ranks), n, source, net.edges);
      }
    } else {
      var contribution := net.damping * At(ranks, source);
      forall n ensures Along(net, Of(ranks), n, out[..0]) == 0.0 {
        AlongNothing(net, Of(ranks), n);
      }
      for i := 0 to |out|
        invariant next.Keys == before.Keys
        invariant forall n :: n in net.nodes ==> next[n] == before[n] + Along(net, Of(ranks), n, out[..i])
      {
        var e := out[i];
        assert e in out && out[..i + 1] == out[..i] + [e];
        TargetIsNode(net, source, e);
        DeliveredIs(net, ranks, e, contribution, total);
        forall n ensures Along(net, Of(ranks), n, out[..i + 1]) ==
                         Along(net, Of(ranks), n, out[..i]) + (if e.target == n then Delivered(net, Of(ranks), e) else 0.0)
        {
          AlongAppend(net, Of(ranks), n, out[..i], e);
        }
        next := next[e.target := next[e.target] + Portion(contribution, e.weight, total)];
      }
      assert out[..|out|] == out;
    }
  }

  lemma AlongNothing(net: Network, x: Vector, n: Node)
    ensures Along(net, x, n, []) == 0.0
  {}

  lemma DanglingIs(net: Network, totals: map<Node, real>, ranks: map<Node, real>)
    requires forall s :: At(totals, s) == net.Total(s)
    ensures Sum(net.nodes, n => if At(totals, n) == 0.0 then At(ranks, n) else 0.0) == net.Dangling(Of(ranks))
  {
    SumAgree(net.nodes, n => if At(totals, n) == 0.0 then At(ranks, n) else 0.0, net.DanglingPart(Of(ranks)));
  }

  /** The loop over the sources. */
  method Spread(net: Network, outgoing: map<Node, seq<Edge>>, totals: map<Node, real>, ranks: map<Node, real>, even: real)
    returns (next: map<Node, real>)
    requires net.Valid()
    requires forall s :: At(totals, s) == net.Total(s)
    requires forall s :: OutOf(outgoing, s) == Positive(net.edges, s)
    ensures next.Keys == (set n | n in net.nodes)
    ensures forall n :: n in net.nodes ==> next[n] == even + FromSources(net, Of(ranks), n, net.nodes, net.edges)
  {
    hide *;
    next := map n | n in net.nodes :: even;
    forall n ensures FromSources(net, Of(ranks), n, net.nodes[..0], net.edges) == 0.0 {
      NoSourcesNoFlow(net, Of(ranks), n);
    }
    for i := 0 to |net.nodes|
      invariant next.Keys == (set n | n in net.nodes)
      invariant forall n :: n in net.nodes ==> next[n] == even + FromSources(net, Of(ranks), n, net.nodes[..i], net.edges)
    {
      var s := net.nodes[i];
      next := SpreadFrom(net, OutOf(outgoing, s), At(totals, s), ranks, s, next);
      assert net.nodes[..i + 1] == net.nodes[..i] + [s];
      forall n ensures FromSources(net, Of(ranks), n, net.nodes[..i + 1], net.edges) ==
                       FromSources(net, Of(ranks), n, net.nodes[..i], net.edges) + Along(net, Of(ranks), n, Positive(net.edges, s))
      {
        FromSourcesAppend(net, Of(ranks), n, net.nodes[..i], s, net.edges);
      }
    }
    assert net.nodes[..|net.nodes|] == net.nodes;
  }

  /** One pass of the loop body: the new table is one step of the equation. */
  method Advance(net: Network, outgoing: map<Node, seq<Edge>>, totals: map<Node, real>, ranks: map<Node, real>)
    returns (next: map<Node, real>)
    requires net.Valid()
    requires forall s :: At(totals, s) == net.Total(s)
    requires forall s :: OutOf(outgoing, s) == Positive(net.edges, s)
    ensures next.Keys == (set n | n in net.nodes)
    ensures forall n :: n in net.nodes ==> next[n] == net.Step(Of(ranks))(n)
  {
    hide *;
    var dangling := Sum(net.nodes, n => if At(totals, n) == 0.0 then At(ranks, n) else 0.0);
    DanglingIs(net, totals, ranks);
    next := Spread(net, outgoing, totals, ranks, EvenPart(net, dangling));
    forall n ensures EvenPart(net, dangling) + FromSources(net, Of(ranks), n, net.nodes, net.edges) == net.Step(Of(ranks))(n) {
      StepByParts(net, Of(ranks), n);
    }
  }

  lemma NoSourcesNoFlow(net: Network, x: Vector, n: Node)
    ensures FromSources(net, x, n, [], net.edges) == 0.0
  {}

  lemma StepAt(net: Network, x: Vector, n: Node)
    ensures net.Step(x)(n) == net.Unit() * (1.0 - net.damping) + net.Flow(x)(n)
  {
    hide Network.Flow;
  }

  lemma DivideIsScale(a: real, count: real)
    requires count > 0.0
    ensures a / count == (1.0 / count) * a
  {}

  lemma Regroup(d: real, mass: real, unit: real)
    ensures unit * (d * mass) == d * (unit * mass)
  {
    assert unit * (d * mass) == (unit * d) * mass;
    assert d * (unit * mass) == (d * unit) * mass;
  }

  lemma EvenPartIs(net: Network, mass: real)
    requires net.Valid()
    ensures EvenPart(net, mass) == net.Unit() * (1.0 - net.damping) + net.damping * (net.Unit() * mass)
  {
    var count := |net.nodes| as real;
    DivideIsScale(1.0 - net.damping, count);
    DivideIsScale(net.damping * mass, count);
    Regroup(net.damping, mass, net.Unit());
  }

  lemma StepByParts(net: Network, x: Vector, n: Node)
    requires net.Valid()
    ensures EvenPart(net, net.Dangling(x)) + FromSources(net, x, n, net.nodes, net.edges) == net.Step(x)(n)
  {
    hide *;
    var u, mass, inflow := net.Unit(), net.Dangling(x), net.Inflow(x, n, |net.edges|);
    assert net.edges[..|net.edges|] == net.edges;
    FromSourcesIsInflow(net, x, n, |net.edges|);
    StepAt(net, x, n);
    FlowAt(net, x, n);
    EvenPartIs(net, mass);
    Distribute(net.damping, u * mass, inflow);
  }

  ghost predicate IsIterate(net: Network, ranks: map<Node, real>, k: nat) {
    ranks.Keys == (set n | n in net.nodes) && forall n :: n in net.nodes ==> ranks[n] == net.Iterate(k)(n)
  }

  /** What the returned table is: the iterate at which the loop stopped, a probability distribution. */
  ghost predicate IsRanking(edges: seq<Edge>, damping: real, limit: int, tolerance: real, ranks: map<Node, real>) {
    exists net: Network, k: nat ::
      && net.Valid() && net.edges == edges && net.damping == damping && AreEndPoints(net.nodes, edges)
      && net.StopsAt(k, limit, tolerance) && IsIterate(net, ranks, k)
      && (forall n :: n in ranks ==> ranks[n] > 0.0)
      && Sum(net.nodes, Of(ranks)) == 1.0
  }

  lemma {:induction false} InflowAgree(net: Network, x: Vector, y: Vector, n: Node, k: nat)
    requires net.Valid() && k <= |net.edges| && forall m :: m in net.nodes ==> x(m) == y(m)
    ensures net.Inflow(x, n, k) == net.Inflow(y, n, k)
  {
    if k > 0 {
      InflowAgree(net, x, y, n, k - 1);
      assert net.edges[k - 1] in net.edges;
    }
  }

  lemma StepAgree(net: Network, x: Vector, y: Vector, n: Node)
    requires net.Valid() && forall m :: m in net.nodes ==> x(m) == y(m)
    ensures net.Step(x)(n) == net.Step(y)(n)
  {
    hide Network.Inflow, OutTotal, Network.Step, Network.Flow;
    InflowAgree(net, x, y, n, |net.edges|);
    SumAgree(net.nodes, net.DanglingPart(x), net.DanglingPart(y));
    StepAt(net, x, n);
    StepAt(net, y, n);
    FlowAt(net, x, n);
    FlowAt(net, y, n);
  }

  /** The loop's `delta` is the distance of two consecutive iterates. */
  lemma DeltaIs(net: Network, ranks: map<Node, real>, next: map<Node, real>, k: nat)
    requires net.Valid() && IsIterate(net, ranks, k) && IsIterate(net, next, k + 1)
    ensures Sum(net.nodes, n => Abs(At(next, n) - At(ranks, n))) == net.Delta(k)
  {
    hide Network.Iterate;
    SumAgree(net.nodes, n => Abs(At(next, n) - At(ranks, n)), net.AbsDiff(net.Iterate(k + 1), net.Iterate(k)));
  }

  lemma AlreadyNormal(net: Network, ranks: map<Node, real>, k: nat)
    requires net.Valid() && IsIterate(net, ranks, k)
    ensures Sum(net.nodes, Of(ranks)) == 1.0
    ensures forall n :: n in ranks ==> ranks[n] > 0.0
  {
    hide Network.Iterate;
    IteratesAreDistributions(net, k);
    SumAgree(net.nodes, Of(ranks), net.Iterate(k));
  }

  method Iterations(net: Network, outgoing: map<Node, seq<Edge>>, totals: map<Node, real>, maxIterations: int, tolerance: real)
    returns (ranks: map<Node, real>)
    requires net.Valid()
    requires forall s :: At(totals, s) == net.Total(s)
    requires forall s :: OutOf(outgoing, s) == Positive(net.edges, s)
    ensures exists k: nat :: IsIterate(net, ranks, k) && net.StopsAt(k, maxIterations, tolerance)
  {
    hide Positive, OutTotal, Network.Step, Network.Distance;
    ranks := map n | n in net.nodes :: 1.0 / |net.nodes| as real;
    ghost var k: nat := 0;
    var i := 0;
    while i < maxIterations
      invariant IsIterate(net, ranks, k) && k == i
      invariant i <= (if maxIterations < 0 then 0 else maxIterations)
      invariant forall j: nat :: j < k ==> net.Delta(j) > tolerance
    {
      var next := Advance(net, outgoing, totals, ranks);
      forall n | n in net.nodes ensures next[n] == net.Iterate(k + 1)(n) {
        StepAgree(net, Of(ranks), net.Iterate(k), n);
      }
      DeltaIs(net, ranks, next, k);
      var delta := Sum(net.nodes, n => Abs(At(next, n) - At(ranks, n)));
      ranks := next;
      k, i := k + 1, i + 1;
      if delta <= tolerance {
        break;
      }
    }
    assert IsIterate(net, ranks, k) && net.StopsAt(k, maxIterations, tolerance);
  }

  lemma SomeEndPoint(nodes: seq<Node>, edges: seq<Edge>)
    requires AreEndPoints(nodes, edges)
    ensures nodes == [] <==> edges == []
  {
    if edges != [] {
      assert edges[0].source in nodes;
    }
    if nodes != [] {
      assert nodes[0] in nodes;
    }
  }

  method WeightedPageRank(edges: seq<Edge>, damping: real, maxIterations: int, tolerance: real) returns (r: Result)
    ensures edges == [] ==> r == Ok(map[])
    ensures edges != [] ==> (r == ValueError <==> !(0.0 < damping < 1.0))
    ensures edges != [] && r.Ok? ==> IsRanking(edges, damping, maxIterations, tolerance, r.ranks)
  {
    hide Positive, OutTotal, Network.Step, Network.Iterate, Network.Distance;
    var nodes := EndPoints(edges);
    SomeEndPoint(nodes, edges);
    if nodes == [] {
      return Ok(map[]);
    }
    if !(0.0 < damping < 1.0) {
      return ValueError;
    }
    var net := Network(nodes, edges, damping);
    var outgoing, totals := GroupEdges(net);
    var ranks := Iterations(net, outgoing, totals, maxIterations, tolerance);
    ghost var k: nat :| IsIterate(net, ranks, k) && net.StopsAt(k, maxIterations, tolerance);
    AlreadyNormal(net, ranks, k);
    var normalization := Sum(nodes, Of(ranks));
    if normalization == 0.0 {
      normalization := 1.0;
    }
    var scaled := map n | n in ranks :: ranks[n] / normalization;
    assert scaled == ranks;
    r := Ok(scaled);
  }

  // ---- the random surfer -----------------------------------------------------

  /** The total weight of the edges from `s` to `n`. */
  function Between(edges: seq<Edge>, s: Node, n: Node): real {
    if edges == [] then 0.0
    else
      var e := edges[|edges| - 1];
      Between(edges[..|edges| - 1], s, n) + (if e.source == s && e.target == n then e.weight else 0.0)
  }

  function Leaving(net: Network, edges: seq<Edge>, s: Node): Vector {
    n => Between(edges, s, n)
  }

  /** The chance that a surfer at `s` goes to `n` next: with the damping factor along an edge in proportion to its weight,
      or anywhere if there is none to follow, and otherwise anywhere. */
  function Move(net: Network, s: Node, n: Node): real
    requires net.nodes != []
  {
    var anywhere := 1.0 / |net.nodes| as real;
    var out := Sum(net.nodes, Leaving(net, net.edges, s));
    (1.0 - net.damping) * anywhere + net.damping * (if out == 0.0 then anywhere else Between(net.edges, s, n) / out)
  }

  lemma {:induction false} OutIsBetween(net: Network, s: Node, k: nat)
    requires net.Valid() && k <= |net.edges|
    ensures Sum(net.nodes, Leaving(net, net.edges[..k], s)) == OutTotal(net.edges[..k], s)
  {
    if k == 0 {
      SumConstant(net.nodes, Leaving(net, net.edges[..0], s), 0.0);
    } else {
      var e := net.edges[k - 1];
      OutIsBetween(net, s, k - 1);
      assert e in net.edges && net.edges[..k][..k - 1] == net.edges[..k - 1];
      SumBump(net.nodes, Leaving(net, net.edges[..k], s), Leaving(net, net.edges[..k - 1], s), e.target,
              if e.source == s then e.weight else 0.0);
    }
  }

  lemma OutIsTotal(net: Network, s: Node)
    requires net.Valid()
    ensures Sum(net.nodes, Leaving(net, net.edges, s)) == net.Total(s) >= 0.0
  {
    OutIsBetween(net, s, |net.edges|);
    assert net.edges[..|net.edges|] == net.edges;
    OutTotalNonNegative(net.edges, s);
  }

  /** What `s` passes to `n` along edges. */
  function Passed(net: Network, x: Vector, edges: seq<Edge>, n: Node): Vector {
    s => if net.Total(s) > 0.0 then x(s) * (Between(edges, s, n) / net.Total(s)) else 0.0
  }

  lemma PassedMore(r: real, b: real, w: real, t: real)
    requires t > 0.0
    ensures r * ((b + w) / t) == r * (b / t) + r * (w / t)
  {
    assert (b + w) / t == b / t + w / t;
  }

  lemma {:induction false} InflowIsPassed(net: Network, x: Vector, n: Node, k: nat)
    requires net.Valid() && k <= |net.edges|
    ensures net.Inflow(x, n, k) == Sum(net.nodes, Passed(net, x, net.edges[..k], n))
  {
    if k == 0 {
      SumConstant(net.nodes, Passed(net, x, net.edges[..0], n), 0.0);
    } else {
      InflowIsPassed(net, x, n, k - 1);
      PassedGrows(net, x, n, k);
      var e := net.edges[k - 1];
      assert e in net.edges;
      SumBump(net.nodes, Passed(net, x, net.edges[..k], n), Passed(net, x, net.edges[..k - 1], n), e.source,
              if e.target == n then net.Carried(x, e) else 0.0);
      hide Passed, Network.Carried;
    }
  }

  lemma PassedGrows(net: Network, x: Vector, n: Node, k: nat)
    requires 0 < k <= |net.edges|
    ensures var e := net.edges[k - 1];
            forall s :: Passed(net, x, net.edges[..k], n)(s) ==
                        Passed(net, x, net.edges[..k - 1], n)(s) + (if s == e.source then (if e.target == n then net.Carried(x, e) else 0.0) else 0.0)
  {
    var e := net.edges[k - 1];
    forall s ensures Passed(net, x, net.edges[..k], n)(s) ==
                     Passed(net, x, net.edges[..k - 1], n)(s) + (if s == e.source then (if e.target == n then net.Carried(x, e) else 0.0) else 0.0)
    {
      PassedGrowsAt(net, x, n, k, s);
    }
  }

  lemma PassedGrowsAt(net: Network, x: Vector, n: Node, k: nat, s: Node)
    requires 0 < k <= |net.edges|
    ensures var e := net.edges[k - 1];
            Passed(net, x, net.edges[..k], n)(s) ==
            Passed(net, x, net.edges[..k - 1], n)(s) + (if s == e.source then (if e.target == n then net.Carried(x, e) else 0.0) else 0.0)
  {
    var e := net.edges[k - 1];
    assert net.edges[..k][..k - 1] == net.edges[..k - 1];
    assert Between(net.edges[..k], s, n) == Between(net.edges[..k - 1], s, n) + (if e.source == s && e.target == n then e.weight else 0.0);
    hide OutTotal, Network.Total, Between;
    if s == e.source && n == e.target && net.Total(s) > 0.0 {
      PassedMore(x(s), Between(net.edges[..k - 1], s, n), e.weight, net.Total(s));
    }
  }

  lemma MoveIs(net: Network, s: Node, n: Node)
    requires net.Valid()
    ensures Move(net, s, n) == (1.0 - net.damping) * net.Unit() + net.damping * Next(net, s, n)
  {
    OutIsTotal(net, s);
    hide OutTotal, Sum, Between;
  }

  /** Where the surfer goes when not jumping. */
  function Next(net: Network, s: Node, n: Node): real {
    if net.Total(s) == 0.0 then net.Unit() else Between(net.edges, s, n) / net.Total(s)
  }

  lemma NextIs(net: Network, x: Vector, s: Node, n: Node)
    requires net.Valid()
    ensures x(s) * Next(net, s, n) == net.Unit() * net.DanglingPart(x)(s) + Passed(net, x, net.edges, n)(s)
  {
    OutIsTotal(net, s);
    hide OutTotal, Sum, Between, Network.Unit;
  }

  /** What reaches `n` from each node. */
  function Arriving(net: Network, x: Vector, n: Node): Vector
    requires net.nodes != []
  {
    s => x(s) * Move(net, s, n)
  }

  function Scaled(c: real, x: Vector): Vector {
    s => c * x(s)
  }

  function Both(x: Vector, y: Vector): Vector {
    s => x(s) + y(s)
  }

  lemma ArrivingForm(r: real, jump: real, d: real, next: real)
    ensures r * (jump + d * next) == jump * r + d * (r * next)
  {
    assert r * (d * next) == d * (r * next);
  }

  lemma ArrivingIs(net: Network, x: Vector, s: Node, n: Node)
    requires net.Valid()
    ensures Arriving(net, x, n)(s) ==
            Scaled((1.0 - net.damping) * net.Unit(), x)(s)
            + Scaled(net.damping, Both(Scaled(net.Unit(), net.DanglingPart(x)), Passed(net, x, net.edges, n)))(s)
  {
    hide Move, Next, Passed, Network.DanglingPart, Network.Unit;
    MoveIs(net, s, n);
    NextIs(net, x, s, n);
    ArrivingForm(x(s), (1.0 - net.damping) * net.Unit(), net.damping, Next(net, s, n));
  }

  /** The step is one move of a random surfer: a node's next rank is what all nodes send it by their chances. */
  lemma StepIsSurfing(net: Network, x: Vector, n: Node)
    requires net.Valid() && Sum(net.nodes, x) == 1.0
    ensures net.Step(x)(n) == Sum(net.nodes, Arriving(net, x, n))
  {
    forall s ensures Arriving(net, x, n)(s) ==
                     Scaled((1.0 - net.damping) * net.Unit(), x)(s)
                     + Scaled(net.damping, Both(Scaled(net.Unit(), net.DanglingPart(x)), Passed(net, x, net.edges, n)))(s)
    {
      ArrivingIs(net, x, s, n);
    }
    hide *;
    var jump := Scaled((1.0 - net.damping) * net.Unit(), x);
    var linked := Scaled(net.damping, Both(Scaled(net.Unit(), net.DanglingPart(x)), Passed(net, x, net.edges, n)));
    SumAdd(net.nodes, Arriving(net, x, n), jump, linked);
    JumpsAddUp(net, x);
    LinkedAddUp(net, x, n);
    StepAt(net, x, n);
  }

  lemma JumpsAddUp(net: Network, x: Vector)
    requires Sum(net.nodes, x) == 1.0
    ensures Sum(net.nodes, Scaled((1.0 - net.damping) * net.Unit(), x)) == net.Unit() * (1.0 - net.damping)
  {
    hide Network.Unit;
    SumOfScaled(net.nodes, (1.0 - net.damping) * net.Unit(), x);
    hide *;
  }

  lemma LinkedAddUp(net: Network, x: Vector, n: Node)
    requires net.Valid()
    ensures Sum(net.nodes, Scaled(net.damping, Both(Scaled(net.Unit(), net.DanglingPart(x)), Passed(net, x, net.edges, n)))) == net.Flow(x)(n)
  {
    hide *;
    var even, passed := Scaled(net.Unit(), net.DanglingPart(x)), Passed(net, x, net.edges, n);
    InflowIsPassed(net, x, n, |net.edges|);
    assert net.edges[..|net.edges|] == net.edges;
    SumOfScaled(net.nodes, net.damping, Both(even, passed));
    SumOfBoth(net.nodes, even, passed);
    EvenAddUp(net, x);
    FlowAt(net, x, n);
  }

  lemma EvenAddUp(net: Network, x: Vector)
    ensures Sum(net.nodes, Scaled(net.Unit(), net.DanglingPart(x))) == net.Unit() * net.Dangling(x)
  {
    SumOfScaled(net.nodes, net.Unit(), net.DanglingPart(x));
    hide Network.Unit, Sum, Scaled;
  }

  lemma SumOfScaled(nodes: seq<Node>, c: real, x: Vector)
    ensures Sum(nodes, Scaled(c, x)) == c * Sum(nodes, x)
  {
    SumScale(nodes, Scaled(c, x), c, x);
  }

  lemma SumOfBoth(nodes: seq<Node>, x: Vector, y: Vector)
    ensures Sum(nodes, Both(x, y)) == Sum(nodes, x) + Sum(nodes, y)
  {
    SumAdd(nodes, Both(x, y), x, y);
  }

  function Moves(net: Network, s: Node): Vector
    requires net.nodes != []
  {
    n => Move(net, s, n)
  }

  function Nexts(net: Network, s: Node): Vector {
    n => Next(net, s, n)
  }

  function Everywhere(c: real): Vector {
    n => c
  }

  lemma NextsAddUp(net: Network, s: Node)
    requires net.Valid()
    ensures Sum(net.nodes, Nexts(net, s)) == 1.0
  {
    OutIsTotal(net, s);
    if net.Total(s) == 0.0 {
      UnitsMakeOne(net);
      hide OutTotal, Between, Sum, Network.Unit;
      SumConstant(net.nodes, Nexts(net, s), net.Unit());
    } else {
      forall n ensures Nexts(net, s)(n) == (1.0 / net.Total(s)) * Leaving(net, net.edges, s)(n) {
        hide OutTotal, Network.Total, Sum;
        DivideIsScale(Between(net.edges, s, n), net.Total(s));
      }
      hide *;
      SumScale(net.nodes, Nexts(net, s), 1.0 / net.Total(s), Leaving(net, net.edges, s));
    }
  }

  /** The surfer always goes somewhere. */
  lemma MovesAddUp(net: Network, s: Node)
    requires net.Valid()
    ensures Sum(net.nodes, Moves(net, s)) == 1.0
  {
    var jump := (1.0 - net.damping) * net.Unit();
    forall n ensures Moves(net, s)(n) == Everywhere(jump)(n) + Scaled(net.damping, Nexts(net, s))(n) {
      MoveIs(net, s, n);
      hide Move, Next, Network.Unit;
    }
    hide *;
    JumpsAnywhere(net, jump);
    NextsScaled(net, s);
    SumAdd(net.nodes, Moves(net, s), Everywhere(jump), Scaled(net.damping, Nexts(net, s)));
  }

  lemma NextsScaled(net: Network, s: Node)
    requires net.Valid()
    ensures Sum(net.nodes, Scaled(net.damping, Nexts(net, s))) == net.damping
  {
    hide *;
    NextsAddUp(net, s);
    SumOfScaled(net.nodes, net.damping, Nexts(net, s));
    TimesOne(net.damping, Sum(net.nodes, Nexts(net, s)));
  }

  lemma TimesOne(x: real, one: real)
    requires one == 1.0
    ensures x * one == x
  {}

  lemma JumpsAnywhere(net: Network, jump: real)
    requires net.Valid() && jump == (1.0 - net.damping) * net.Unit()
    ensures Sum(net.nodes, Everywhere(jump)) == 1.0 - net.damping
  {
    SumConstant(net.nodes, Everywhere(jump), jump);
    UnitsMakeOne(net);
    hide *;
    assert |net.nodes| as real * ((1.0 - net.damping) * net.Unit()) == (1.0 - net.damping) * (|net.nodes| as real * net.Unit());
  }

  /** The loop stops after the first change within the tolerance, and at the limit at the latest. */
  lemma StopsIff(net: Network, k: nat, limit: nat, tolerance: real)
    ensures net.StopsAt(k, limit, tolerance) <==>
            && k <= limit && (k < limit ==> 0 < k && net.Delta(k - 1) <= tolerance)
            && forall j: nat :: j < k - 1 ==> net.Delta(j) > tolerance
  {
    hide Network.Delta;
  }

  // ---- the answer is unique --------------------------------------------------

  ghost predicate SameProblem(a: Network, b: Network) {
    a.Valid() && b.Valid() && a.edges == b.edges && a.damping == b.damping && forall n :: n in a.nodes <==> n in b.nodes
  }

  lemma SameSize(a: Network, b: Network)
    requires SameProblem(a, b)
    ensures |a.nodes| == |b.nodes| && a.Unit() == b.Unit()
  {
    var one: Vector := n => 1.0;
    SumOrderFree(a.nodes, b.nodes, one);
    SumConstant(a.nodes, one, 1.0);
    SumConstant(b.nodes, one, 1.0);
  }

  lemma {:induction false} SameInflow(a: Network, b: Network, x: Vector, n: Node, k: nat)
    requires SameProblem(a, b) && k <= |a.edges|
    ensures a.Inflow(x, n, k) == b.Inflow(x, n, k)
  {
    if k > 0 {
      SameInflow(a, b, x, n, k - 1);
    }
  }

  lemma SameDangling(a: Network, b: Network, x: Vector)
    requires SameProblem(a, b)
    ensures a.Dangling(x) == b.Dangling(x)
  {
    SumOrderFree(a.nodes, b.nodes, a.DanglingPart(x));
    SumAgree(b.nodes, a.DanglingPart(x), b.DanglingPart(x));
  }

  lemma SameFields(a: Network, b: Network)
    requires SameProblem(a, b)
    ensures a.edges == b.edges && a.damping == b.damping
  {}

  lemma SameStep(a: Network, b: Network, x: Vector, n: Node)
    requires SameProblem(a, b)
    ensures a.Step(x)(n) == b.Step(x)(n)
  {
    hide *;
    SameSize(a, b);
    SameInflow(a, b, x, n, |a.edges|);
    SameDangling(a, b, x);
    StepAt(a, x, n);
    StepAt(b, x, n);
    FlowAt(a, x, n);
    FlowAt(b, x, n);
    SameFields(a, b);
  }

  /** Iterates do not depend on the order in which the nodes are listed. */
  lemma {:induction false} SameIterates(a: Network, b: Network, n: Node, k: nat)
    requires SameProblem(a, b) && n in a.nodes
    ensures a.Iterate(k)(n) == b.Iterate(k)(n)
    decreases k
  {
    hide Network.Step, Network.Unit;
    if k == 0 {
      SameSize(a, b);
    } else {
      forall m | m in a.nodes ensures a.Iterate(k - 1)(m) == b.Iterate(k - 1)(m) {
        SameIterates(a, b, m, k - 1);
      }
      StepAgree(a, a.Iterate(k - 1), b.Iterate(k - 1), n);
      SameStep(a, b, b.Iterate(k - 1), n);
    }
  }

  lemma SameDeltas(a: Network, b: Network, k: nat)
    requires SameProblem(a, b)
    ensures a.Delta(k) == b.Delta(k)
  {
    hide Network.Iterate;
    var x, y := a.AbsDiff(a.Iterate(k + 1), a.Iterate(k)), b.AbsDiff(b.Iterate(k + 1), b.Iterate(k));
    forall n | n in a.nodes ensures x(n) == y(n) {
      SameIterates(a, b, n, k + 1);
      SameIterates(a, b, n, k);
    }
    SumAgree(a.nodes, x, y);
    SumOrderFree(a.nodes, b.nodes, y);
  }

  lemma SameStop(a: Network, b: Network, i: nat, j: nat, limit: int, tolerance: real)
    requires SameProblem(a, b) && a.StopsAt(i, limit, tolerance) && b.StopsAt(j, limit, tolerance)
    ensures i == j
  {
    hide Network.Delta;
    if 0 < i < j {
      SameDeltas(a, b, i - 1);
    } else if 0 < j < i {
      SameDeltas(a, b, j - 1);
    }
  }

  /** The ranking is a function of the edges and the parameters: neither the node order nor any choice
      made by the loops shows in it. */
  lemma RankingIsUnique(edges: seq<Edge>, damping: real, limit: int, tolerance: real, r: map<Node, real>, r': map<Node, real>)
    requires IsRanking(edges, damping, limit, tolerance, r) && IsRanking(edges, damping, limit, tolerance, r')
    ensures r == r'
  {
    hide Network.Iterate, Network.StopsAt, Network.Valid;
    var a: Network, i: nat :| a.Valid() && a.edges == edges && a.damping == damping && AreEndPoints(a.nodes, edges)
                              && a.StopsAt(i, limit, tolerance) && IsIterate(a, r, i);
    var b: Network, j: nat :| b.Valid() && b.edges == edges && b.damping == damping && AreEndPoints(b.nodes, edges)
                              && b.StopsAt(j, limit, tolerance) && IsIterate(b, r', j);
    assert forall n :: n in a.nodes <==> n in b.nodes;
    SameStop(a, b, i, j, limit, tolerance);
    forall n | n in a.nodes ensures r[n] == r'[n] {
      SameIterates(a, b, n, i);
    }
  }
}
