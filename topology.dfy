/**
 The topology graph store shared by the broadcast and router applications:
 a dictionary from datapath id to the list of links leaving that switch,
 mutated by the switch enter/leave and link add/delete events.
 */
module Topology {

  /** Datapath id of a switch. */
  type Dpid = nat

  /** Port number local to one switch. */
  type Port = nat

  /** One adjacency entry `(src_port, dst_dpid, dst_port)` of a source switch. */
  datatype Link = Link(srcPort: Port, dst: Dpid, dstPort: Port)

  /** The `switches` dictionary: datapath id to its outgoing links, in insertion order. */
  type Switches = map<Dpid, seq<Link>>

  /** Index of the first occurrence of `x` in `s`. */
  function IndexOf<T(==)>(s: seq<T>, x: T): (i: nat)
    requires x in s
    ensures i < |s| && s[i] == x && x !in s[..i]
  {
    if s[0] == x then 0 else 1 + IndexOf(s[1..], x)
  }

  /** Python's `list.remove(x)`: drop the first occurrence of `x`, keeping the order of the rest. */
  function RemoveFirst<T(==)>(s: seq<T>, x: T): (r: seq<T>)
    requires x in s
    ensures |r| == |s| - 1
    ensures multiset(r) == multiset(s) - multiset{x}
    ensures r[..IndexOf(s, x)] == s[..IndexOf(s, x)]
    ensures r[IndexOf(s, x)..] == s[IndexOf(s, x) + 1..]
  {
    var i := IndexOf(s, x);
    assert s == s[..i] + [x] + s[i + 1..];
    s[..i] + s[i + 1..]
  }

  /** An element appended to a list that did not hold it is found at the end. */
  lemma {:induction false} IndexOfAppended<T>(s: seq<T>, x: T)
    requires x !in s
    ensures IndexOf(s + [x], x) == |s|
  {
    if s != [] {
      assert (s + [x])[1..] == s[1..] + [x];
      IndexOfAppended(s[1..], x);
    }
  }

  /** Removing an element that was just appended and occurred nowhere before gives back the list. */
  lemma {:induction false} RemoveFirstAppended<T>(s: seq<T>, x: T)
    requires x !in s
    ensures RemoveFirst(s + [x], x) == s
  {
    IndexOfAppended(s, x);
    assert (s + [x])[..|s|] == s;
  }

  /** Switch enter (`switches[id] = []`): the id now maps to an empty list, whatever it held before. */
  function WithSwitch(g: Switches, id: Dpid): (r: Switches)
    ensures r.Keys == g.Keys + {id}
    ensures r[id] == []
    ensures forall k :: k in g && k != id ==> r[k] == g[k]
  {
    g[id := []]
  }

  /** Switch leave (`del switches[id]`): only that key disappears; other lists still name it. */
  function WithoutSwitch(g: Switches, id: Dpid): (r: Switches)
    requires id in g
    ensures r.Keys == g.Keys - {id}
    ensures forall k :: k in r ==> r[k] == g[k]
  {
    g - {id}
  }

  /** Link add: with a known source, one entry is appended to that source's list only. */
  function WithLink(g: Switches, src: Dpid, l: Link): (r: Switches)
    ensures src !in g ==> r == g
    ensures r.Keys == g.Keys
    ensures src in g ==> r[src] == g[src] + [l]
    ensures forall k :: k in g && k != src ==> r[k] == g[k]
  {
    if src in g then g[src := g[src] + [l]] else g
  }

  /** Link delete: with a known source, exactly one occurrence is removed from that source's list. */
  function WithoutLink(g: Switches, src: Dpid, l: Link): (r: Switches)
    requires src in g ==> l in g[src]
    ensures src !in g ==> r == g
    ensures r.Keys == g.Keys
    ensures src in g ==> |r[src]| == |g[src]| - 1
    ensures src in g ==> multiset(r[src]) == multiset(g[src]) - multiset{l}
    ensures forall k :: k in g && k != src ==> r[k] == g[k]
  {
    if src in g then g[src := RemoveFirst(g[src], l)] else g
  }

  /** Entering a switch twice is the same as entering it once. */
  lemma WithSwitchIdempotent(g: Switches, id: Dpid)
    ensures WithSwitch(WithSwitch(g, id), id) == WithSwitch(g, id)
  {
  }

  /** Re-entering a known switch discards the links recorded for it. */
  lemma ReenterDiscardsLinks(g: Switches, id: Dpid, l: Link)
    requires id in g
    ensures WithSwitch(WithLink(g, id, l), id) == WithSwitch(g, id)
    ensures WithLink(g, id, l)[id] != WithSwitch(WithLink(g, id, l), id)[id]
  {
  }

  /** A link that comes up and goes down again leaves the store as it was. */
  lemma LinkUpDownRoundTrip(g: Switches, src: Dpid, l: Link)
    requires src in g ==> l !in g[src]
    ensures WithoutLink(WithLink(g, src, l), src, l) == g
  {
    if src in g {
      RemoveFirstAppended(g[src], l);
    }
  }

  /** Switch leave does not purge the switch from its neighbours' lists. */
  lemma LeaveKeepsReferences(g: Switches, id: Dpid, k: Dpid, l: Link)
    requires id in g && k in g && k != id && l in g[k] && l.dst == id
    ensures k in WithoutSwitch(g, id) && l in WithoutSwitch(g, id)[k]
  {
  }
}
