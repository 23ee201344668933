/**
 The broadcast application: it keeps the topology graph store and, after every
 topology event, computes a flood tree from one initial switch as a map from
 datapath id to the ports a flooded packet is sent out of.
 */
module Broadcast {
  import opened Topology

  /** Flood ports per datapath, the result of the spanning-tree computation. */
  type FloodPorts = map<Dpid, seq<Port>>

  /** Destinations named in an adjacency list. */
  function Dsts(adj: seq<Link>): (d: set<Dpid>)
    ensures forall i :: 0 <= i < |adj| ==> adj[i].dst in d
  {
    set l | l in adj :: l.dst
  }

  /** Extending a prefix of an adjacency list by one link adds that link's destination. */
  lemma DstsPrefix(adj: seq<Link>, j: nat)
    requires j < |adj|
    ensures Dsts(adj[..j + 1]) == Dsts(adj[..j]) + {adj[j].dst}
  {
    assert adj[..j + 1] == adj[..j] + [adj[j]];
  }

  /** Source ports named in an adjacency list. */
  function SrcPorts(adj: seq<Link>): (p: set<Port>)
    ensures forall i :: 0 <= i < |adj| ==> adj[i].srcPort in p
  {
    set l | l in adj :: l.srcPort
  }

  /**
   The flood ports after the exploration has scanned the prefix `adj` of the
   initial switch's adjacency list: every link whose destination is not yet a
   key gives that destination the link's `dst_port` and appends the link's
   `src_port` to the initial switch's ports.
   */
  function Tree(adj: seq<Link>, root: Dpid): (t: FloodPorts)
    ensures root in t
    decreases |adj|
  {
    if adj == [] then map[root := []]
    else
      var t0 := Tree(adj[..|adj| - 1], root);
      var l := adj[|adj| - 1];
      if l.dst in t0 then t0
      else t0[l.dst := [l.dstPort]][root := t0[root] + [l.srcPort]]
  }

  /** The result of the spanning-tree computation from `initial` on the store `g`. */
  function SpanningTree(g: Switches, initial: Dpid): (t: FloodPorts)
    requires |g| == 0 || initial in g
    ensures |g| == 0 <==> t == map[]
  {
    if |g| == 0 then map[] else Tree(g[initial], initial)
  }

  /** Total number of ports over all lists of a flood-port map. */
  ghost function TotalPorts(m: FloodPorts): nat
    decreases |m|
  {
    if m == map[] then 0
    else
      var k :| k in m;
      |m[k]| + TotalPorts(m - {k})
  }

  /** The total can be taken apart at any key. */
  lemma {:induction false} TotalPortsAt(m: FloodPorts, k: Dpid)
    requires k in m
    ensures TotalPorts(m) == |m[k]| + TotalPorts(m - {k})
    decreases |m|
  {
    var j :| j in m && TotalPorts(m) == |m[j]| + TotalPorts(m - {j});
    if j != k {
      TotalPortsAt(m - {j}, k);
      TotalPortsAt(m - {k}, j);
      assert m - {j} - {k} == m - {k} - {j};
    }
  }

  /** The keys of the tree are the initial switch and exactly the destinations of its own links. */
  lemma {:induction false} TreeKeys(adj: seq<Link>, root: Dpid)
    ensures Tree(adj, root).Keys == {root} + Dsts(adj)
    decreases |adj|
  {
    if adj != [] {
      var pre := adj[..|adj| - 1];
      TreeKeys(pre, root);
      assert adj == pre + [adj[|adj| - 1]];
      assert Dsts(adj) == Dsts(pre) + {adj[|adj| - 1].dst};
    }
  }

  /**
   Tree edge count: every discovery adds one key holding one port and one port
   at the initial switch, so the ports number twice the non-initial keys, and
   the initial switch holds one port per non-initial key.
   */
  lemma {:induction false} TreeEdgeCount(adj: seq<Link>, root: Dpid)
    ensures TotalPorts(Tree(adj, root)) == 2 * (|Tree(adj, root)| - 1)
    ensures |Tree(adj, root)[root]| == |Tree(adj, root)| - 1
    decreases |adj|
  {
    var t := Tree(adj, root);
    if adj == [] {
      TotalPortsAt(t, root);
      assert t - {root} == map[];
    } else {
      var pre := adj[..|adj| - 1];
      var t0 := Tree(pre, root);
      var l := adj[|adj| - 1];
      TreeEdgeCount(pre, root);
      if l.dst !in t0 {
        assert t.Keys == t0.Keys + {l.dst};
        TotalPortsAt(t, root);
        TotalPortsAt(t0, root);
        assert l.dst in t - {root};
        TotalPortsAt(t - {root}, l.dst);
        assert t - {root} - {l.dst} == t0 - {root};
      }
    }
  }

  /** Every port of the initial switch is the `src_port` of one of its own links. */
  lemma {:induction false} TreeRootPorts(adj: seq<Link>, root: Dpid)
    ensures forall i :: 0 <= i < |Tree(adj, root)[root]| ==> Tree(adj, root)[root][i] in SrcPorts(adj)
    decreases |adj|
  {
    if adj != [] {
      var pre := adj[..|adj| - 1];
      TreeRootPorts(pre, root);
      assert adj == pre + [adj[|adj| - 1]];
      assert SrcPorts(adj) == SrcPorts(pre) + {adj[|adj| - 1].srcPort};
    }
  }

  /**
   Every non-initial key holds exactly the `dst_port` of the first link of the
   initial switch that leads to it.
   */
  lemma {:induction false} TreeLeaf(adj: seq<Link>, root: Dpid, d: Dpid)
    requires d in Tree(adj, root) && d != root
    ensures exists i :: 0 <= i < |adj| && adj[i].dst == d && Tree(adj, root)[d] == [adj[i].dstPort]
                        && forall k :: 0 <= k < i ==> adj[k].dst != d
    decreases |adj|
  {
    var pre := adj[..|adj| - 1];
    var t0 := Tree(pre, root);
    var l := adj[|adj| - 1];
    if d in t0 {
      TreeLeaf(pre, root, d);
      var i :| 0 <= i < |pre| && pre[i].dst == d && t0[d] == [pre[i].dstPort]
               && forall k :: 0 <= k < i ==> pre[k].dst != d;
      assert adj[i] == pre[i];
      assert forall k :: 0 <= k < i ==> adj[k] == pre[k];
    } else {
      TreeKeys(pre, root);
      assert forall k :: 0 <= k < |pre| ==> adj[k] == pre[k];
      assert adj[|pre|] == l;
    }
  }

  /** Adding a new key adds its list's length to the total. */
  lemma TotalPortsInsert(m: FloodPorts, k: Dpid, v: seq<Port>)
    requires k !in m
    ensures TotalPorts(m[k := v]) == TotalPorts(m) + |v|
  {
    TotalPortsAt(m[k := v], k);
    assert m[k := v] - {k} == m;
  }

  /** Replacing the list at a key changes the total by the difference in length. */
  lemma TotalPortsReplace(m: FloodPorts, k: Dpid, v: seq<Port>)
    requires k in m
    ensures TotalPorts(m[k := v]) == TotalPorts(m) - |m[k]| + |v|
  {
    TotalPortsAt(m[k := v], k);
    TotalPortsAt(m, k);
    assert m[k := v] - {k} == m - {k};
  }

  /** `b` is the destination of one of the links recorded for the known switch `a`. */
  ghost predicate Edge(g: Switches, a: Dpid, b: Dpid)
  {
    a in g && b in Dsts(g[a])
  }

  /** A walk along recorded links. */
  ghost predicate IsPath(g: Switches, p: seq<Dpid>)
  {
    |p| >= 1 && forall i :: 0 <= i < |p| - 1 ==> Edge(g, p[i], p[i + 1])
  }

  /** `b` can be reached from `a` by following recorded links. */
  ghost predicate Reachable(g: Switches, a: Dpid, b: Dpid)
  {
    exists p :: IsPath(g, p) && p[0] == a && p[|p| - 1] == b
  }

  lemma ReachableRefl(g: Switches, a: Dpid)
    ensures Reachable(g, a, a)
  {
    assert IsPath(g, [a]);
  }

  lemma ReachableStep(g: Switches, a: Dpid, b: Dpid, c: Dpid)
    requires Reachable(g, a, b) && Edge(g, b, c)
    ensures Reachable(g, a, c)
  {
    var p :| IsPath(g, p) && p[0] == a && p[|p| - 1] == b;
    var q := p + [c];
    forall i | 0 <= i < |q| - 1
      ensures Edge(g, q[i], q[i + 1])
    {
      if i + 1 < |p| {
        assert q[i] == p[i] && q[i + 1] == p[i + 1];
      }
    }
    assert IsPath(g, q);
  }

  /** A set that holds `a` and is closed under recorded links holds every walk from `a`. */
  lemma {:induction false} ClosedHoldsPath(g: Switches, s: set<Dpid>, p: seq<Dpid>)
    requires IsPath(g, p) && p[0] in s
    requires forall x, y :: x in s && Edge(g, x, y) ==> y in s
    ensures p[|p| - 1] in s
    decreases |p|
  {
    if |p| > 1 {
      var q := p[..|p| - 1];
      forall i | 0 <= i < |q| - 1
        ensures Edge(g, q[i], q[i + 1])
      {
        assert q[i] == p[i] && q[i + 1] == p[i + 1];
      }
      assert IsPath(g, q);
      ClosedHoldsPath(g, s, q);
      assert Edge(g, p[|p| - 2], p[|p| - 1]);
    }
  }

  /** Every datapath id the store mentions, as a key or as a destination. */
  function Nodes(g: Switches): (n: set<Dpid>)
    ensures g.Keys <= n
    ensures forall a, b :: Edge(g, a, b) ==> b in n
  {
    g.Keys + set a, l | a in g && l in g[a] :: l.dst
  }

  /** Pairwise distinct elements. */
  ghost predicate Distinct(s: seq<Dpid>)
  {
    forall i, k :: 0 <= i < k < |s| ==> s[i] != s[k]
  }

  /**
   What a partial scan keeps, starting from the reachable set `r0` and the
   worklist `e0`: the flood-port keys are the reachable set, the worklist is
   duplicate-free and reachable, it only gained switches that were not reachable
   before.
   */
  ghost predicate Scanned(r0: set<Dpid>, e0: seq<Dpid>, r: set<Dpid>, e: seq<Dpid>, f: FloodPorts)
  {
    && f.Keys == r && r0 <= r
    && Distinct(e) && (forall i :: 0 <= i < |e| ==> e[i] in r)
    && (forall x :: x in e0 ==> x in e)
    && (forall x :: x in e && x !in e0 ==> x !in r0)
    && (forall x :: x in r && x !in r0 ==> x in e)
    && (r == r0 ==> e == e0)
  }

  /** One discovery (lines 110-113) keeps a partial scan what it should be. */
  lemma DiscoverStep(r0: set<Dpid>, e0: seq<Dpid>, r: set<Dpid>, e: seq<Dpid>, f: FloodPorts, src: Dpid, l: Link)
    requires Scanned(r0, e0, r, e, f) && src in r && l.dst !in r
    ensures Scanned(r0, e0, r + {l.dst}, e + [l.dst], f[l.dst := [l.dstPort]][src := f[src] + [l.srcPort]])
  {
  }

  /**
   One scan of an adjacency list (the inner `for` loop of the exploration):
   every destination not yet reachable becomes reachable, is pushed on the
   worklist, receives the link's `dst_port`, and `src` receives the link's
   `src_port`.
   */
  method ScanLinks(adj: seq<Link>, src: Dpid, reachable: set<Dpid>, explorable: seq<Dpid>, floodPorts: FloodPorts)
    returns (reachable': set<Dpid>, explorable': seq<Dpid>, floodPorts': FloodPorts)
    requires Scanned(reachable, explorable, reachable, explorable, floodPorts) && src in reachable
    ensures Scanned(reachable, explorable, reachable', explorable', floodPorts')
    ensures reachable' == reachable + Dsts(adj)
  {
    reachable', explorable', floodPorts' := reachable, explorable, floodPorts;
    var j := 0;
    while j < |adj|
      invariant 0 <= j <= |adj|
      invariant Scanned(reachable, explorable, reachable', explorable', floodPorts')
      invariant reachable' == reachable + Dsts(adj[..j])
    {
      var link := adj[j];
      DstsPrefix(adj, j);
      if link.dst !in reachable' {
        DiscoverStep(reachable, explorable, reachable', explorable', floodPorts', src, link);
        reachable' := reachable' + {link.dst};
        explorable' := explorable' + [link.dst];
        floodPorts' := floodPorts'[link.dst := [link.dstPort]];
        floodPorts' := floodPorts'[src := floodPorts'[src] + [link.srcPort]];
      }
      j := j + 1;
    }
    assert adj[..j] == adj;
  }

  /** The links recorded for `x`, none for a switch the store does not know. */
  function LinksOf(g: Switches, x: Dpid): (adj: seq<Link>)
    ensures forall y :: y in Dsts(adj) <==> Edge(g, x, y)
  {
    if x in g then g[x] else []
  }

  /**
   The invariant of the corrected exploration: the flood-port keys are the
   reachable set, which holds the root, lies within the store and holds only
   switches reachable from the root; the worklist is duplicate-free and
   reachable; every reachable switch off the worklist has all its link
   destinations reachable.
   */
  ghost predicate Exploring(g: Switches, root: Dpid, r: set<Dpid>, e: seq<Dpid>, f: FloodPorts)
  {
    && f.Keys == r && root in r && r <= Nodes(g)
    && Distinct(e) && (forall i :: 0 <= i < |e| ==> e[i] in r)
    && (forall x :: x in r ==> Reachable(g, root, x))
    && (forall x, y :: x in r && x !in e && Edge(g, x, y) ==> y in r)
  }

  lemma ExploringInit(g: Switches, root: Dpid)
    requires root in g
    ensures Exploring(g, root, {root}, [root], map[root := []])
  {
    ReachableRefl(g, root);
  }

  /** Popping the last worklist entry leaves a state a scan can start from. */
  lemma ExploringPop(g: Switches, root: Dpid, r: set<Dpid>, w: seq<Dpid>, f: FloodPorts)
    requires Exploring(g, root, r, w, f) && |w| > 0
    ensures Scanned(r, w[..|w| - 1], r, w[..|w| - 1], f)
    ensures w[|w| - 1] in r && w[|w| - 1] !in w[..|w| - 1]
  {
  }

  /** The switches a scan of `src`'s own links discovers are reachable from the root. */
  lemma ScanSound(g: Switches, root: Dpid, r: set<Dpid>, src: Dpid, r': set<Dpid>)
    requires src in r && forall x :: x in r ==> Reachable(g, root, x)
    requires r' == r + Dsts(LinksOf(g, src))
    ensures forall x :: x in r' ==> Reachable(g, root, x)
  {
    forall y | y in r' - r
      ensures Reachable(g, root, y)
    {
      ReachableStep(g, root, src, y);
    }
  }

  /** After the scan, `src` joins the switches whose link destinations are all reachable. */
  lemma ScanCloses(g: Switches, r: set<Dpid>, e: seq<Dpid>, src: Dpid, r': set<Dpid>, e': seq<Dpid>)
    requires forall x, y :: x in r && x !in e + [src] && Edge(g, x, y) ==> y in r
    requires r <= r' && r' == r + Dsts(LinksOf(g, src))
    requires forall x :: x in e ==> x in e'
    requires forall x :: x in r' && x !in r ==> x in e'
    ensures forall x, y :: x in r' && x !in e' && Edge(g, x, y) ==> y in r'
  {
    forall x, y | x in r' && x !in e' && Edge(g, x, y)
      ensures y in r'
    {
      if x == src {
        assert y in Dsts(LinksOf(g, src));
      } else {
        assert x in r && x !in e;
        assert x !in e + [src];
      }
    }
  }

  /** A subset is no larger than its superset. */
  lemma {:induction false} SubsetSize(a: set<Dpid>, b: set<Dpid>)
    requires a <= b
    ensures |a| <= |b|
    decreases |b|
  {
    if a != {} {
      var x :| x in a;
      SubsetSize(a - {x}, b - {x});
    }
  }

  /** The scan only adds switches the store mentions, so the unexplored part shrinks when it adds any. */
  lemma ScanProgress(g: Switches, r: set<Dpid>, src: Dpid, r': set<Dpid>)
    requires r <= Nodes(g) && r' == r + Dsts(LinksOf(g, src))
    ensures r' <= Nodes(g)
    ensures r' != r ==> |Nodes(g) - r'| < |Nodes(g) - r|
  {
    forall y | y in Dsts(LinksOf(g, src))
      ensures y in Nodes(g)
    {
      assert Edge(g, src, y);
    }
    if r' != r {
      assert !(r' <= r);
      var y :| y in r' && y !in r;
      SubsetSize(Nodes(g) - r', (Nodes(g) - r) - {y});
    }
  }

  /** Scanning the popped switch's own links restores the invariant and makes progress. */
  lemma ExploringStep(g: Switches, root: Dpid, r: set<Dpid>, w: seq<Dpid>, f: FloodPorts,
                      r': set<Dpid>, e': seq<Dpid>, f': FloodPorts)
    requires Exploring(g, root, r, w, f) && |w| > 0
    requires Scanned(r, w[..|w| - 1], r', e', f') && r' == r + Dsts(LinksOf(g, w[|w| - 1]))
    ensures Exploring(g, root, r', e', f')
    ensures r' != r ==> |Nodes(g) - r'| < |Nodes(g) - r|
    ensures r' == r ==> |e'| < |w|
  {
    var src, e := w[|w| - 1], w[..|w| - 1];
    ExploringPop(g, root, r, w, f);
    assert w == e + [src];
    ScanSound(g, root, r, src, r');
    ScanCloses(g, r, e, src, r', e');
    ScanProgress(g, r, src, r');
  }

  /** With the worklist empty, the reachable set is closed and so holds every reachable switch. */
  lemma ExploringDone(g: Switches, root: Dpid, r: set<Dpid>, f: FloodPorts)
    requires Exploring(g, root, r, [], f)
    ensures root in f
    ensures forall d :: d in f ==> Reachable(g, root, d)
    ensures forall d :: Reachable(g, root, d) ==> d in f
  {
    forall d | Reachable(g, root, d)
      ensures d in f
    {
      var p :| IsPath(g, p) && p[0] == root && p[|p| - 1] == d;
      ClosedHoldsPath(g, r, p);
    }
  }

  /**
   As written, the exploration never looks past the initial switch's own links:
   in the line 1 -> 2 -> 3, switch 3 is reachable from 1 but gets no flood ports.
   */
  lemma AsWrittenMissesTwoHopSwitch()
    ensures var g := map[1 := [Link(1, 2, 1)], 2 := [Link(2, 3, 1)]];
            Reachable(g, 1, 3) && 3 !in SpanningTree(g, 1)
  {
    var g := map[1 := [Link(1, 2, 1)], 2 := [Link(2, 3, 1)]];
    ReachableRefl(g, 1);
    assert Edge(g, 1, 2) by { assert g[1][0].dst == 2; }
    ReachableStep(g, 1, 1, 2);
    assert Edge(g, 2, 3) by { assert g[2][0].dst == 3; }
    ReachableStep(g, 1, 2, 3);
    TreeKeys(g[1], 1);
    assert Dsts(g[1]) == {2};
  }

  class Broadcast {
    /** A dictionary from datapath id to its list of connected neighbours. */
    var switches: Switches

    constructor ()
      ensures switches == map[]
    {
      switches := map[];
    }

    /** Switch enter event. */
    method AddSwitch(id: Dpid)
      modifies this
      ensures switches == WithSwitch(old(switches), id)
    {
      switches := switches[id := []];
    }

    /** Switch leave event; `del` raises on an unknown id. */
    method DeleteSwitch(id: Dpid)
      requires id in switches
      modifies this
      ensures switches == WithoutSwitch(old(switches), id)
    {
      switches := switches - {id};
    }

    /** Link add event; ignored when the source switch is unknown. */
    method AddLink(src: Dpid, srcPort: Port, dst: Dpid, dstPort: Port)
      modifies this
      ensures switches == WithLink(old(switches), src, Link(srcPort, dst, dstPort))
    {
      if src in switches {
        var link := Link(srcPort, dst, dstPort);
        switches := switches[src := switches[src] + [link]];
      }
    }

    /** Link delete event; `list.remove` raises when the link was never recorded. */
    method DeleteLink(src: Dpid, srcPort: Port, dst: Dpid, dstPort: Port)
      requires src in switches ==> Link(srcPort, dst, dstPort) in switches[src]
      modifies this
      ensures switches == WithoutLink(old(switches), src, Link(srcPort, dst, dstPort))
    {
      if src in switches {
        var link := Link(srcPort, dst, dstPort);
        switches := switches[src := RemoveFirst(switches[src], link)];
      }
    }

    /**
     The spanning-tree computation as written: a LIFO worklist exploration from
     `initial` that, on every step, scans the INITIAL switch's adjacency list.
     `initial` stands for whichever key the dictionary iteration yields first.
     */
    method CalculateSpanningTree(initial: Dpid) returns (floodPorts: FloodPorts)
      requires |switches| == 0 || initial in switches
      ensures floodPorts == SpanningTree(switches, initial)
      ensures |switches| != 0 ==> TotalPorts(floodPorts) == 2 * (|floodPorts| - 1)
    {
      var reachable: set<Dpid> := {};
      var explorable: seq<Dpid> := [];
      floodPorts := map[];
      if |switches| == 0 {
        return;
      }
      var dpid := initial;
      reachable := reachable + {dpid};
      explorable := explorable + [dpid];
      floodPorts := floodPorts[dpid := []];
      TreeKeys(switches[dpid], dpid);
      ghost var first := true;
      while |explorable| != 0
        invariant reachable == floodPorts.Keys
        invariant forall x :: x in explorable ==> x in floodPorts
        invariant first ==> explorable == [dpid] && floodPorts == map[dpid := []]
        invariant !first ==> floodPorts == Tree(switches[dpid], dpid)
        decreases if first then 1 else 0, |explorable|
      {
        var srcDpid := explorable[|explorable| - 1];
        explorable := explorable[..|explorable| - 1];
        ghost var rest := explorable;
        var j := 0;
        while j < |switches[dpid]|
          invariant 0 <= j <= |switches[dpid]|
          invariant reachable == floodPorts.Keys
          invariant srcDpid in floodPorts
          invariant forall x :: x in explorable ==> x in floodPorts
          invariant first ==> srcDpid == dpid && floodPorts == Tree(switches[dpid][..j], dpid)
          invariant !first ==> floodPorts == Tree(switches[dpid], dpid) && explorable == rest
        {
          var link := switches[dpid][j];
          assert switches[dpid][..j + 1][..j] == switches[dpid][..j];
          if link.dst !in reachable {
            reachable := reachable + {link.dst};
            explorable := explorable + [link.dst];
            floodPorts := floodPorts[link.dst := [link.dstPort]];
            floodPorts := floodPorts[srcDpid := floodPorts[srcDpid] + [link.srcPort]];
          }
          j := j + 1;
        }
        assert switches[dpid][..j] == switches[dpid];
        first := false;
      }
      TreeEdgeCount(switches[dpid], dpid);
    }

    /**
     The exploration as evidently intended: each popped switch's OWN adjacency
     list is scanned (a destination the store does not know has no links). The
     result covers exactly the switches reachable from `initial`.
     */
    method CalculateSpanningTreeCorrected(initial: Dpid) returns (floodPorts: FloodPorts)
      requires |switches| == 0 || initial in switches
      ensures |switches| == 0 ==> floodPorts == map[]
      ensures |switches| != 0 ==> initial in floodPorts
      ensures forall d :: d in floodPorts ==> Reachable(switches, initial, d)
      ensures |switches| != 0 ==> forall d :: Reachable(switches, initial, d) ==> d in floodPorts
    {
      var reachable: set<Dpid> := {};
      var explorable: seq<Dpid> := [];
      floodPorts := map[];
      if |switches| == 0 {
        return;
      }
      var dpid := initial;
      reachable := reachable + {dpid};
      explorable := explorable + [dpid];
      floodPorts := floodPorts[dpid := []];
      ExploringInit(switches, dpid);
      while |explorable| != 0
        invariant Exploring(switches, dpid, reachable, explorable, floodPorts)
        decreases |Nodes(switches) - reachable|, |explorable|
      {
        ghost var r0, w0, f0 := reachable, explorable, floodPorts;
        ExploringPop(switches, dpid, r0, w0, f0);
        var srcDpid := explorable[|explorable| - 1];
        explorable := explorable[..|explorable| - 1];
        var adj := LinksOf(switches, srcDpid);
        reachable, explorable, floodPorts := ScanLinks(adj, srcDpid, reachable, explorable, floodPorts);
        ExploringStep(switches, dpid, r0, w0, f0, reachable, explorable, floodPorts);
      }
      ExploringDone(switches, dpid, reachable, floodPorts);
    }
  }
}
