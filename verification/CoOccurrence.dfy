/** `_build_edges`: co-occurrence edges between the entity records of one run, with the
    fan-out of each node capped at nine later nodes per risk flag. A record is represented
    by its list of risk flags; nothing else about it is read. */
module CoOccurrence {
  import opened Connectivity

  type Node = nat
  type Edge = (nat, nat)

  const FAN_OUT: nat := 10

  // ----- flag_to_nodes -----

  /** All (flag, node) memberships in loop order. */
  function Memberships(records: seq<seq<string>>): seq<(string, Node)> {
    if records == [] then []
    else
      var i := |records| - 1;
      Memberships(records[..i]) + OfRecord(records[i], i)
  }

  function OfRecord(flags: seq<string>, i: Node): seq<(string, Node)> {
    seq(|flags|, k requires 0 <= k < |flags| => (flags[k], i))
  }

  function NodesOf(ms: seq<(string, Node)>, flag: string): seq<Node> {
    if ms == [] then []
    else
      var last := ms[|ms| - 1];
      NodesOf(ms[..|ms| - 1], flag) + if last.0 == flag then [last.1] else []
  }

  /** Flags in order of first appearance, which is the dictionary order. */
  function FlagOrder(ms: seq<(string, Node)>): seq<string> {
    if ms == [] then []
    else
      var before, flag := FlagOrder(ms[..|ms| - 1]), ms[|ms| - 1].0;
      if flag in before then before else before + [flag]
  }

  // ----- edges -----

  /** Both directions of (a, a+1), ..., (a, end-1). */
  function RowEdges(nodes: seq<Node>, a: nat, end: nat): seq<Edge>
    requires a < end <= |nodes|
  {
    if end == a + 1 then []
    else RowEdges(nodes, a, end - 1) + [(nodes[a], nodes[end - 1]), (nodes[end - 1], nodes[a])]
  }

  function RowEnd(n: nat, a: nat): nat {
    if n < a + FAN_OUT then n else a + FAN_OUT
  }

  function FlagEdges(nodes: seq<Node>, rows: nat): seq<Edge>
    requires rows <= |nodes|
  {
    if rows == 0 then []
    else FlagEdges(nodes, rows - 1) + RowEdges(nodes, rows - 1, RowEnd(|nodes|, rows - 1))
  }

  function EdgesOf(flags: seq<string>, ms: seq<(string, Node)>): seq<Edge> {
    if flags == [] then []
    else
      var nodes := NodesOf(ms, flags[|flags| - 1]);
      EdgesOf(flags[..|flags| - 1], ms) + FlagEdges(nodes, |nodes|)
  }

  function Edges(records: seq<seq<string>>): seq<Edge> {
    var ms := Memberships(records);
    EdgesOf(FlagOrder(ms), ms)
  }

  ghost predicate Indexed(ms: seq<(string, Node)>, order: seq<string>, nodes: map<string, seq<Node>>) {
    && order == FlagOrder(ms)
    && (forall fl :: fl in order <==> fl in nodes)
    && (forall fl :: fl in nodes ==> nodes[fl] == NodesOf(ms, fl))
  }

  lemma IndexStep(ms: seq<(string, Node)>, order: seq<string>, nodes: map<string, seq<Node>>, m: (string, Node))
    requires Indexed(ms, order, nodes)
    ensures var had := m.0 in nodes;
            Indexed(ms + [m], if had then order else order + [m.0],
                    nodes[m.0 := (if had then nodes[m.0] else []) + [m.1]])
  {
    var ms' := ms + [m];
    assert ms'[..|ms'| - 1] == ms && ms'[|ms'| - 1] == m;
    if m.0 !in nodes { UnseenFlag(ms, m.0); }
  }

  lemma {:induction false} UnseenFlag(ms: seq<(string, Node)>, flag: string)
    requires flag !in FlagOrder(ms)
    ensures NodesOf(ms, flag) == []
  {
    if ms != [] { UnseenFlag(ms[..|ms| - 1], flag); }
  }

  method IndexRecord(flags: seq<string>, i: Node, order0: seq<string>, nodes0: map<string, seq<Node>>,
                     ghost ms: seq<(string, Node)>)
    returns (order: seq<string>, nodes: map<string, seq<Node>>)
    requires Indexed(ms, order0, nodes0)
    ensures Indexed(ms + OfRecord(flags, i), order, nodes)
  {
    hide Indexed;
    order, nodes := order0, nodes0;
    var k := 0;
    assert ms + OfRecord(flags[..k], i) == ms;
    while k < |flags|
      invariant k <= |flags|
      invariant Indexed(ms + OfRecord(flags[..k], i), order, nodes)
    {
      var fl := flags[k];
      ghost var had, before := fl in nodes, nodes;
      IndexStep(ms + OfRecord(flags[..k], i), order, nodes, (fl, i));
      assert ms + OfRecord(flags[..k], i) + [(fl, i)] == ms + OfRecord(flags[..k + 1], i);
      if fl !in nodes {
        order := order + [fl];
        nodes := nodes[fl := []];
      }
      nodes := nodes[fl := nodes[fl] + [i]];
      assert nodes == before[fl := (if had then before[fl] else []) + [i]];
      k := k + 1;
    }
    assert flags[..k] == flags;
  }

  method IndexFlags(records: seq<seq<string>>) returns (order: seq<string>, nodes: map<string, seq<Node>>)
    ensures Indexed(Memberships(records), order, nodes)
  {
    order, nodes := [], map[];
    assert Indexed(Memberships(records[..0]), order, nodes);
    hide Indexed, OfRecord;
    var i := 0;
    while i < |records|
      invariant i <= |records|
      invariant Indexed(Memberships(records[..i]), order, nodes)
    {
      order, nodes := IndexRecord(records[i], i, order, nodes, Memberships(records[..i]));
      assert records[..i + 1][..i] == records[..i];
      i := i + 1;
    }
    assert records[..i] == records;
  }

  /** The two inner loops, for the nodes of one flag. */
  method LinkNodes(nodes: seq<Node>) returns (edges: seq<Edge>)
    ensures edges == FlagEdges(nodes, |nodes|)
  {
    edges := [];
    var a := 0;
    while a < |nodes|
      invariant a <= |nodes|
      invariant edges == FlagEdges(nodes, a)
    {
      ghost var before := edges;
      var b := a + 1;
      while b < RowEnd(|nodes|, a)
        invariant a < b <= RowEnd(|nodes|, a)
        invariant edges == before + RowEdges(nodes, a, b)
      {
        edges := edges + [(nodes[a], nodes[b])];
        edges := edges + [(nodes[b], nodes[a])];
        b := b + 1;
      }
      a := a + 1;
    }
  }

  method BuildEdges(records: seq<seq<string>>) returns (edges: seq<Edge>)
    ensures edges == Edges(records)
  {
    hide FlagEdges;
    var order, index := IndexFlags(records);
    ghost var ms := Memberships(records);
    edges := [];
    var f := 0;
    while f < |order|
      invariant f <= |order|
      invariant edges == EdgesOf(order[..f], ms)
    {
      var more := LinkNodes(index[order[f]]);
      edges := edges + more;
      assert order[..f + 1][..f] == order[..f];
      f := f + 1;
    }
    assert order[..f] == order;
  }

  // ----- Which edges there are -----

  /** u and v stand at most nine places apart in the node list of one flag. */
  ghost predicate Near(nodes: seq<Node>, u: Node, v: Node) {
    exists a: nat, b: nat :: NearAt(nodes, u, v, a, b)
  }

  ghost predicate NearAt(nodes: seq<Node>, u: Node, v: Node, a: nat, b: nat) {
    && a < b < |nodes| && b - a <= 9
    && ((u, v) == (nodes[a], nodes[b]) || (v, u) == (nodes[a], nodes[b]))
  }

  lemma {:induction false} RowEdgesExact(nodes: seq<Node>, a: nat, end: nat, u: Node, v: Node)
    requires a < end <= RowEnd(|nodes|, a) && a < |nodes|
    ensures (u, v) in RowEdges(nodes, a, end) <==> exists b: nat :: b < end && NearAt(nodes, u, v, a, b)
    ensures |RowEdges(nodes, a, end)| == 2 * (end - a - 1)
  {
    if end > a + 1 {
      RowEdgesExact(nodes, a, end - 1, u, v);
      var b := end - 1;
      assert NearAt(nodes, u, v, a, b) <==>
             ((u, v) == (nodes[a], nodes[b]) || (u, v) == (nodes[b], nodes[a]));
    }
  }

  lemma {:induction false} FlagEdgesExact(nodes: seq<Node>, rows: nat, u: Node, v: Node)
    requires rows <= |nodes|
    ensures (u, v) in FlagEdges(nodes, rows) <==> exists a: nat, b: nat :: a < rows && NearAt(nodes, u, v, a, b)
    ensures |FlagEdges(nodes, rows)| <= 18 * rows
  {
    hide NearAt;
    if rows > 0 {
      FlagEdgesExact(nodes, rows - 1, u, v);
      RowEdgesExact(nodes, rows - 1, RowEnd(|nodes|, rows - 1), u, v);
      NearEnds(nodes, u, v, rows - 1);
    }
  }

  lemma NearEnds(nodes: seq<Node>, u: Node, v: Node, a: nat)
    ensures forall b: nat :: NearAt(nodes, u, v, a, b) ==> b < RowEnd(|nodes|, a)
  {
  }

  ghost predicate NearFor(ms: seq<(string, Node)>, flag: string, u: Node, v: Node) {
    Near(NodesOf(ms, flag), u, v)
  }

  lemma {:induction false} EdgesOfExact(flags: seq<string>, ms: seq<(string, Node)>, u: Node, v: Node)
    ensures (u, v) in EdgesOf(flags, ms) <==> exists fl :: fl in flags && NearFor(ms, fl, u, v)
  {
    hide NearAt, NodesOf;
    if flags != [] {
      var init, last := flags[..|flags| - 1], flags[|flags| - 1];
      var nodes := NodesOf(ms, last);
      EdgesOfExact(init, ms, u, v);
      FlagEdgesExact(nodes, |nodes|, u, v);
      NearStarts(nodes, u, v);
      assert (u, v) in FlagEdges(nodes, |nodes|) <==> NearFor(ms, last, u, v);
      hide NearFor;
      assert EdgesOf(flags, ms) == EdgesOf(init, ms) + FlagEdges(nodes, |nodes|);
      assert flags == init + [last];
      assert forall fl :: fl in flags <==> fl in init || fl == last;
    }
  }

  lemma NearStarts(nodes: seq<Node>, u: Node, v: Node)
    ensures Near(nodes, u, v) <==> exists a: nat, b: nat :: a < |nodes| && NearAt(nodes, u, v, a, b)
  {
  }

  ghost predicate Carries(records: seq<seq<string>>, u: Node, flag: string) {
    u < |records| && flag in records[u]
  }

  lemma {:induction false} NodesCarry(records: seq<seq<string>>, flag: string, u: Node)
    ensures u in NodesOf(Memberships(records), flag) <==> Carries(records, u, flag)
    ensures flag in FlagOrder(Memberships(records)) <==> NodesOf(Memberships(records), flag) != []
  {
    MembershipsExact(records, flag, u);
    NodesExact(Memberships(records), flag, u);
    if flag !in FlagOrder(Memberships(records)) { UnseenFlag(Memberships(records), flag); }
    SeenFlag(Memberships(records), flag);
  }

  lemma {:induction false} SeenFlag(ms: seq<(string, Node)>, flag: string)
    ensures flag in FlagOrder(ms) ==> NodesOf(ms, flag) != []
  {
    if ms != [] { SeenFlag(ms[..|ms| - 1], flag); }
  }

  lemma {:induction false} NodesExact(ms: seq<(string, Node)>, flag: string, u: Node)
    ensures u in NodesOf(ms, flag) <==> (flag, u) in ms
  {
    if ms != [] {
      var init, last := ms[..|ms| - 1], ms[|ms| - 1];
      NodesExact(init, flag, u);
      assert ms == init + [last];
    }
  }

  lemma {:induction false} MembershipsExact(records: seq<seq<string>>, flag: string, u: Node)
    ensures (flag, u) in Memberships(records) <==> Carries(records, u, flag)
  {
    if records != [] {
      var i := |records| - 1;
      MembershipsExact(records[..i], flag, u);
      var own := OfRecord(records[i], i);
      assert (flag, u) in own <==> u == i && flag in records[i] by {
        if u == i && flag in records[i] {
          var k :| 0 <= k < |records[i]| && records[i][k] == flag;
          assert own[k] == (flag, u);
        }
      }
    }
  }

  lemma {:induction false} OfRecordCount(flags: seq<string>, i: Node, m: (string, Node))
    ensures multiset(OfRecord(flags, i))[m] == if m.1 == i then multiset(flags)[m.0] else 0
  {
    if flags != [] {
      var init, last := flags[..|flags| - 1], flags[|flags| - 1];
      OfRecordCount(init, i, m);
      assert OfRecord(flags, i) == OfRecord(init, i) + [(last, i)];
      assert flags == init + [last];
    }
  }

  lemma {:induction false} MembershipMultiplicity(records: seq<seq<string>>, m: (string, Node))
    ensures multiset(Memberships(records))[m] == if m.1 < |records| then multiset(records[m.1])[m.0] else 0
  {
    if records != [] {
      var i := |records| - 1;
      MembershipMultiplicity(records[..i], m);
      OfRecordCount(records[i], i, m);
    }
  }

  lemma {:induction false} NodeMultiplicity(ms: seq<(string, Node)>, flag: string, u: Node)
    ensures multiset(NodesOf(ms, flag))[u] == multiset(ms)[(flag, u)]
  {
    if ms != [] {
      NodeMultiplicity(ms[..|ms| - 1], flag, u);
      assert ms == ms[..|ms| - 1] + [ms[|ms| - 1]];
    }
  }

  ghost predicate InRecordOrder(ms: seq<(string, Node)>) {
    forall i, j :: 0 <= i < j < |ms| ==> ms[i].1 <= ms[j].1
  }

  lemma {:induction false} MembershipsInOrder(records: seq<seq<string>>)
    ensures InRecordOrder(Memberships(records))
    ensures forall m :: m in Memberships(records) ==> m.1 < |records|
  {
    if records != [] {
      var i := |records| - 1;
      MembershipsInOrder(records[..i]);
      var before, own := Memberships(records[..i]), OfRecord(records[i], i);
      var all := before + own;
      forall k, l | 0 <= k < l < |all| ensures all[k].1 <= all[l].1 {
        if k < |before| { assert all[k] == before[k] && before[k] in before; }
      }
    }
  }

  lemma {:induction false} NodesStayOrdered(ms: seq<(string, Node)>, flag: string)
    requires InRecordOrder(ms)
    ensures forall i, j :: 0 <= i < j < |NodesOf(ms, flag)| ==> NodesOf(ms, flag)[i] <= NodesOf(ms, flag)[j]
    ensures forall u :: u in NodesOf(ms, flag) ==> exists m :: m in ms && m.1 == u
  {
    if ms != [] {
      var init, last := ms[..|ms| - 1], ms[|ms| - 1];
      NodesStayOrdered(init, flag);
      assert ms == init + [last];
      var before := NodesOf(init, flag);
      forall i | 0 <= i < |before| ensures before[i] <= last.1 {
        assert before[i] in before;
        var m :| m in init && m.1 == before[i];
        var k :| 0 <= k < |init| && init[k] == m;
        assert ms[k].1 <= ms[|ms| - 1].1;
      }
      forall u | u in NodesOf(ms, flag) ensures exists m :: m in ms && m.1 == u {
        if u !in before { assert last in ms; }
      }
    }
  }

  /** A flag's node list holds every record as often as it carries the flag, in record order. */
  lemma NodeLists(records: seq<seq<string>>, flag: string, u: Node)
    ensures var nodes := NodesOf(Memberships(records), flag);
            && multiset(nodes)[u] == (if u < |records| then multiset(records[u])[flag] else 0)
            && forall i, j :: 0 <= i < j < |nodes| ==> nodes[i] <= nodes[j]
  {
    NodeMultiplicity(Memberships(records), flag, u);
    MembershipMultiplicity(records, (flag, u));
    MembershipsInOrder(records);
    NodesStayOrdered(Memberships(records), flag);
  }

  // ----- The cap keeps the components -----

  /** The uncapped graph: an edge wherever two records share a risk flag. */
  ghost function SharedFlagGraph(records: seq<seq<string>>): set<Edge> {
    set u, v | 0 <= u < |records| && 0 <= v < |records| && SharesFlag(records, u, v) :: (u, v)
  }

  ghost predicate SharesFlag(records: seq<seq<string>>, u: Node, v: Node) {
    exists fl :: Carries(records, u, fl) && Carries(records, v, fl)
  }

  ghost function CappedGraph(records: seq<seq<string>>): set<Edge> {
    set e | e in Edges(records)
  }

  lemma EdgeExact(records: seq<seq<string>>, u: Node, v: Node)
    ensures (u, v) in Edges(records) <==>
              exists fl :: NearFor(Memberships(records), fl, u, v)
  {
    var ms := Memberships(records);
    EdgesOfExact(FlagOrder(ms), ms, u, v);
    if fl :| NearFor(ms, fl, u, v) {
      var a: nat, b: nat :| NearAt(NodesOf(ms, fl), u, v, a, b);
      NodesCarry(records, fl, u);
      assert fl in FlagOrder(ms);
    }
  }

  /** Message passing sees an undirected graph. */
  lemma EdgesAreSymmetric(records: seq<seq<string>>, u: Node, v: Node)
    ensures (u, v) in Edges(records) <==> (v, u) in Edges(records)
  {
    EdgeExact(records, u, v);
    EdgeExact(records, v, u);
    forall fl ensures NearFor(Memberships(records), fl, u, v) <==> NearFor(Memberships(records), fl, v, u) {
      NearSymmetric(NodesOf(Memberships(records), fl), u, v);
      NearSymmetric(NodesOf(Memberships(records), fl), v, u);
    }
  }

  lemma NearSymmetric(nodes: seq<Node>, u: Node, v: Node)
    ensures Near(nodes, u, v) ==> Near(nodes, v, u)
  {
    if Near(nodes, u, v) {
      var a: nat, b: nat :| NearAt(nodes, u, v, a, b);
      assert NearAt(nodes, v, u, a, b);
    }
  }

  lemma {:induction false} ListIsConnected(records: seq<seq<string>>, flag: string, a: nat, b: nat)
    requires var nodes := NodesOf(Memberships(records), flag); a <= b < |nodes|
    ensures var nodes := NodesOf(Memberships(records), flag);
            Connected(CappedGraph(records), nodes[a], nodes[b])
    decreases b
  {
    hide Memberships, NodesOf, Connected, CappedGraph;
    var nodes, E := NodesOf(Memberships(records), flag), CappedGraph(records);
    if a == b {
      Reflexive(E, nodes[a]);
    } else {
      ListIsConnected(records, flag, a, b - 1);
      NeighboursLinked(records, flag, b);
      Transitive(E, nodes[a], nodes[b - 1], nodes[b]);
    }
  }

  lemma NeighboursLinked(records: seq<seq<string>>, flag: string, b: nat)
    requires 0 < b < |NodesOf(Memberships(records), flag)|
    ensures var nodes := NodesOf(Memberships(records), flag);
            Connected(CappedGraph(records), nodes[b - 1], nodes[b])
  {
    hide Memberships, NodesOf, Connected, Edges;
    var nodes := NodesOf(Memberships(records), flag);
    assert NearAt(nodes, nodes[b - 1], nodes[b], b - 1, b);
    assert NearFor(Memberships(records), flag, nodes[b - 1], nodes[b]);
    EdgeExact(records, nodes[b - 1], nodes[b]);
    OneEdge(CappedGraph(records), nodes[b - 1], nodes[b]);
  }

  lemma SharedFlagIsConnected(records: seq<seq<string>>, u: Node, v: Node)
    requires SharesFlag(records, u, v)
    ensures Connected(CappedGraph(records), u, v)
  {
    var fl :| Carries(records, u, fl) && Carries(records, v, fl);
    NodesCarry(records, fl, u);
    NodesCarry(records, fl, v);
    var nodes := NodesOf(Memberships(records), fl);
    var a :| 0 <= a < |nodes| && nodes[a] == u;
    var b :| 0 <= b < |nodes| && nodes[b] == v;
    if a <= b {
      ListIsConnected(records, fl, a, b);
    } else {
      ListIsConnected(records, fl, b, a);
      Symmetric(CappedGraph(records), v, u);
    }
  }

  lemma CappedEdgeShares(records: seq<seq<string>>, u: Node, v: Node)
    requires (u, v) in Edges(records)
    ensures SharesFlag(records, u, v)
  {
    EdgeExact(records, u, v);
    var fl :| NearFor(Memberships(records), fl, u, v);
    var nodes := NodesOf(Memberships(records), fl);
    var a: nat, b: nat :| NearAt(nodes, u, v, a, b);
    assert nodes[a] in nodes && nodes[b] in nodes;
    NodesCarry(records, fl, u);
    NodesCarry(records, fl, v);
  }

  /** Capping the fan-out loses no connectivity and adds none. */
  lemma CapKeepsComponents(records: seq<seq<string>>, u: Node, v: Node)
    ensures Connected(CappedGraph(records), u, v) <==> Connected(SharedFlagGraph(records), u, v)
  {
    var capped, full := CappedGraph(records), SharedFlagGraph(records);
    forall x, y | (x, y) in capped ensures Connected(full, x, y) {
      CappedEdgeShares(records, x, y);
      OneEdge(full, x, y);
    }
    forall x, y | (x, y) in full ensures Connected(capped, x, y) {
      SharedFlagIsConnected(records, x, y);
    }
    if Connected(capped, u, v) { Simulates(capped, full, u, v); }
    if Connected(full, u, v) { Simulates(full, capped, u, v); }
  }

  // ----- The edge list is linear in the memberships -----

  predicate NoRepeats(flags: seq<string>) {
    forall i, j :: 0 <= i < j < |flags| ==> flags[i] != flags[j]
  }

  function TotalNodes(flags: seq<string>, ms: seq<(string, Node)>): nat {
    if flags == [] then 0
    else TotalNodes(flags[..|flags| - 1], ms) + |NodesOf(ms, flags[|flags| - 1])|
  }

  lemma {:induction false} TotalStep(flags: seq<string>, ms: seq<(string, Node)>, m: (string, Node))
    requires NoRepeats(flags)
    ensures TotalNodes(flags, ms + [m]) == TotalNodes(flags, ms) + if m.0 in flags then 1 else 0
  {
    assert (ms + [m])[..|ms|] == ms;
    if flags != [] {
      var init, last := flags[..|flags| - 1], flags[|flags| - 1];
      TotalStep(init, ms, m);
      assert flags == init + [last];
      assert m.0 in flags <==> m.0 in init || m.0 == last;
    }
  }

  lemma {:induction false} TotalIsMemberships(flags: seq<string>, ms: seq<(string, Node)>)
    requires NoRepeats(flags)
    requires forall m :: m in ms ==> m.0 in flags
    ensures TotalNodes(flags, ms) == |ms|
  {
    if ms == [] {
      NoNodes(flags);
    } else {
      var init, last := ms[..|ms| - 1], ms[|ms| - 1];
      assert ms == init + [last];
      TotalIsMemberships(flags, init);
      TotalStep(flags, init, last);
    }
  }

  lemma {:induction false} NoNodes(flags: seq<string>)
    ensures TotalNodes(flags, []) == 0
  {
    if flags != [] { NoNodes(flags[..|flags| - 1]); }
  }

  lemma {:induction false} FlagOrderDistinct(ms: seq<(string, Node)>)
    ensures NoRepeats(FlagOrder(ms))
    ensures forall m :: m in ms ==> m.0 in FlagOrder(ms)
  {
    if ms != [] {
      var init, last := ms[..|ms| - 1], ms[|ms| - 1];
      FlagOrderDistinct(init);
      assert ms == init + [last];
      var before := FlagOrder(init);
      assert FlagOrder(ms) == if last.0 in before then before else before + [last.0];
    }
  }

  lemma {:induction false} EdgesOfCount(flags: seq<string>, ms: seq<(string, Node)>)
    ensures |EdgesOf(flags, ms)| <= 18 * TotalNodes(flags, ms)
  {
    if flags != [] {
      EdgesOfCount(flags[..|flags| - 1], ms);
      var nodes := NodesOf(ms, flags[|flags| - 1]);
      FlagEdgesExact(nodes, |nodes|, 0, 0);
    }
  }

  function FlagCount(records: seq<seq<string>>): nat {
    if records == [] then 0 else FlagCount(records[..|records| - 1]) + |records[|records| - 1]|
  }

  lemma {:induction false} MembershipCount(records: seq<seq<string>>)
    ensures |Memberships(records)| == FlagCount(records)
  {
    if records != [] { MembershipCount(records[..|records| - 1]); }
  }

  /** At most 18 edges per flag carried by a record, however many records share it. */
  lemma EdgesAreLinear(records: seq<seq<string>>)
    ensures |Edges(records)| <= 18 * FlagCount(records)
  {
    var ms := Memberships(records);
    FlagOrderDistinct(ms);
    TotalIsMemberships(FlagOrder(ms), ms);
    EdgesOfCount(FlagOrder(ms), ms);
    MembershipCount(records);
  }
}
