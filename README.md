# l2-router controller applications in Dafny

This project models two small stateful components of an OpenFlow 1.3 controller
written as Ryu applications.

- **Topology graph store and flood tree** (`broadcast.py`, repeated in
  `router.py`). The `switches` dictionary maps each datapath id to the list of
  `(src_port, dst_dpid, dst_port)` links leaving that switch. Switch enter and
  leave events and link add and delete events mutate it.
  `calculate_spanning_tree` explores from one initial switch with a LIFO
  worklist. It returns, for each datapath id, the ports a flooded packet leaves
  by.
- **Port-security monitor** (`port-security.py`). Each packet-in has its
  Ethernet header unpacked: destination, source and the 16-bit Length/Type
  field, big-endian, as in the MAC frame format of IEEE 802.3 clause 3. The
  monitor keeps a duplicate-free list of source MACs per
  `(datapath id, in_port)`. It requests a port shutdown whenever a newly
  appended source makes that list longer than 8.

Modules:

- `Topology` (topology.dfy) holds the link type and the store's transition functions (`WithSwitch`, `WithoutSwitch`, `WithLink`, `WithoutLink`), with Python's `list.remove` as `RemoveFirst`.
- `Broadcast` (broadcast.dfy) holds the class `Broadcast`:
  - its handlers change the `switches` field in place;
  - `CalculateSpanningTree` is the `while` loop as written, proved equal to the specification function `SpanningTree`;
  - lemmas prove what that result is: its keys, its edge count, and where each port comes from.
- `Router` (router.dfy) holds the class `Router`, with the same four handlers and the no-op packet handler.
- `Packet` (packet.dfy) holds the Ethernet header parse and its inverse.
- `PortSecurity` (port_security.dfy) holds the step function `Observe`, the class `PortSecurity` whose `NewPacket` is proved against `Observe`, and the threshold lemmas.

Where the design description of the system and the code disagree, the model
follows the code:

- Re-adding a known switch replaces its list with an empty one. It is not a no-op.
- Deleting a switch removes only its own key. Other switches' lists keep links to it.
- Deleting an unknown switch, or a link that was never recorded, raises in Python. The model makes both a precondition.
- The flood tree is a worklist exploration, not a union-find over all edges. As written it only ever looks at the initial switch's links (see Findings).
- Port security does not filter LLDP frames.
- Port security does not stop after the first shutdown: every further new address triggers another one.
- The port-mod message carries no hardware address.

## Model

| member | source | states |
|---|---|---|
| `Topology.IndexOf` | broadcast.py:52 | the index returned holds `x`, and no earlier position does (the occurrence `list.remove` deletes) |
| `Topology.RemoveFirst` | broadcast.py:52 | exactly one occurrence of `x` is dropped: the length falls by one, the multiset loses one `x`, the part before the first `x` is kept and the rest shifts left |
| `Topology.WithSwitch` | broadcast.py:33 | switch enter adds the id with an empty list and replaces whatever list it had; every other key is unchanged |
| `Topology.WithoutSwitch` | broadcast.py:38 | switch leave needs the id to be present; it removes that key only and leaves every other list untouched, even links that point to the removed switch |
| `Topology.WithLink` | broadcast.py:43-45 | link add with an unknown source changes nothing; with a known source it appends exactly that one tuple to that source's list, and every other entry is unchanged |
| `Topology.WithoutLink` | broadcast.py:50-52 | link delete needs the tuple to be present when the source is known; it removes one occurrence (length minus one, multiset minus one) from that list only; an unknown source changes nothing |
| `Topology.WithSwitchIdempotent` | broadcast.py:33 | entering a switch twice gives the same store as entering it once |
| `Topology.ReenterDiscardsLinks` | broadcast.py:33 | re-entering a switch after a link was added to it discards that link |
| `Topology.LinkUpDownRoundTrip` | broadcast.py:41-53 | adding a link the source did not have and then deleting it restores the store exactly |
| `Topology.LeaveKeepsReferences` | broadcast.py:36-39 | after a switch leaves, a neighbour's link to it is still recorded |
| `Broadcast.Broadcast.constructor` | broadcast.py:25-29 | the store starts empty |
| `Broadcast.Broadcast.AddSwitch` | broadcast.py:31-34 | the new `switches` is `WithSwitch` of the old one |
| `Broadcast.Broadcast.DeleteSwitch` | broadcast.py:36-39 | requires the id to be known; the new `switches` is `WithoutSwitch` of the old one |
| `Broadcast.Broadcast.AddLink` | broadcast.py:41-46 | the new `switches` is `WithLink` of the old one with the tuple `(src_port, dst_dpid, dst_port)` |
| `Broadcast.Broadcast.DeleteLink` | broadcast.py:48-53 | requires the tuple to be recorded for a known source; the new `switches` is `WithoutLink` of the old one |
| `Broadcast.SpanningTree` | broadcast.py:96-97 | the flood-port map is empty exactly when the store is empty |
| `Broadcast.Broadcast.CalculateSpanningTree` | broadcast.py:79-117 | the LIFO exploration as written returns `SpanningTree(switches, initial)`: the tree built from the initial switch's own links; for a non-empty store the ports number 2 × (keys − 1) |
| `Broadcast.TreeKeys` | broadcast.py:101-113 | the result's keys are exactly the initial switch and the destinations of the initial switch's own links, so each dpid is discovered at most once and nothing further away is ever reached |
| `Broadcast.TreeEdgeCount` | broadcast.py:103-113 | tree edge count: the total number of ports across all lists is 2 × (keys − 1), and the initial switch holds keys − 1 of them |
| `Broadcast.TreeRootPorts` | broadcast.py:108-113 | every port in the initial switch's list is a `src_port` of one of its own links |
| `Broadcast.TreeLeaf` | broadcast.py:108-112 | every non-initial key holds exactly one port, the `dst_port` of the first link of the initial switch that leads to it |
| `Broadcast.AsWrittenMissesTwoHopSwitch` | broadcast.py:108 | in the line 1 → 2 → 3, switch 3 is reachable from 1 but gets no entry in the result as written |
| `Broadcast.ScanLinks` | broadcast.py:108-113 | one scan of an adjacency list makes every destination reachable, pushes each newly reached one on the worklist exactly once, and gives the newly reached ones keys in the result |
| `Broadcast.Broadcast.CalculateSpanningTreeCorrected` | broadcast.py:105-113 | with each popped switch's own links scanned, the result's keys are exactly the switches reachable from the initial switch (empty store: empty result) |
| `Router.Router.constructor` | router.py:12-15 | the store starts empty |
| `Router.Router.AddSwitch` | router.py:17-20 | the new `switches` is `WithSwitch` of the old one |
| `Router.Router.DeleteSwitch` | router.py:22-25 | requires the id to be known; the new `switches` is `WithoutSwitch` of the old one |
| `Router.Router.AddLink` | router.py:27-32 | the new `switches` is `WithLink` of the old one |
| `Router.Router.DeleteLink` | router.py:34-39 | requires the tuple to be recorded for a known source; the new `switches` is `WithoutLink` of the old one |
| `Router.Router.NewPacket` | router.py:41-43 | the packet-in handler changes no state |
| `Packet.ParseHeader` | port-security.py:28 | unpacking succeeds exactly when the frame has at least 14 bytes |
| `Packet.EncodeHeader` | port-security.py:28 | a header occupies exactly 14 bytes on the wire |
| `Packet.ParseEncode` | port-security.py:28 | a frame that starts with an encoded header parses back to that header, whatever payload follows: `dst` is bytes 0..6, `src` is bytes 6..12, and the type is bytes 12..14 read big-endian |
| `Packet.EncodeParse` | port-security.py:28 | every frame of at least 14 bytes is its parsed header re-encoded, followed by the remaining bytes |
| `PortSecurity.Observe` | port-security.py:33-50 | the first packet on a new port creates `[src]` with no shutdown; a known source changes nothing; a new source is appended; no other port changes; a shutdown is issued exactly when a new source was appended and the list becomes longer than 8, and it targets the `in_port` of the switch the packet arrived on |
| `PortSecurity.ObservePreservesValid` | port-security.py:36-40 | invariant: every port's list stays non-empty and free of duplicates |
| `PortSecurity.ObserveNewAddress` | port-security.py:39-50 | a new source on a known port grows that list by exactly that address, and causes a shutdown exactly when the new length exceeds 8 |
| `PortSecurity.DistinctAddressesRecorded` | port-security.py:36-40 | distinct addresses seen on a fresh port are recorded in arrival order |
| `PortSecurity.ObserveAllOtherPorts` | port-security.py:33-40 | packets on one port leave every other port's entry as it was |
| `PortSecurity.DistinctAddressesShutdowns` | port-security.py:43-50 | n distinct addresses on a fresh port cause exactly max(0, n − 8) shutdowns: none up to eight, one for the ninth and one for each further address |
| `PortSecurity.KnownAddressesSilent` | port-security.py:39 | re-sending addresses a port already holds changes nothing and sends nothing |
| `PortSecurity.NinthAddressShutsPortOnce` | port-security.py:43-50 | eight distinct addresses cause no shutdown, the ninth causes exactly one, and repeating any of the nine causes none |
| `PortSecurity.PortSecurity.constructor` | port-security.py:20-22 | the table starts empty, with the invariant holding |
| `PortSecurity.PortSecurity.NewPacket` | port-security.py:24-50 | keeps the invariant. A frame under 14 bytes changes nothing and sends nothing. Otherwise the new table and the shutdown request are `Observe` of the old table on `(dpid, in_port)` with the parsed source |

## Left out

- init.py: it only builds fixed OpenFlow 1.3 FlowMod messages through Ryu's parser and sends them. It has no logic of its own to model.
- Printing: the printing in `set_broadcast_tree` (broadcast.py:70-75) and its FIXME stubs (broadcast.py:62-77) are left out. Since printing is the only use of the computed tree, the broadcast handlers are modelled as the store mutation alone.
- `router.py` calls a `set_broadcast_tree` that `Router` does not define (router.py:20, 25, 32, 39). The model keeps only the mutation that runs before that call.
- Ryu plumbing is left out: the `@set_ev_cls` dispatch, `send_msg` and the `OFPPortMod` construction (port-security.py:45-50). A shutdown is the abstract output `Some((dpid, in_port))` returned by `NewPacket`.
- The console message at port-security.py:44 and the commented-out FlowMod at port-security.py:51-59 are left out.
- Dictionary iteration order: the initial switch that `iteritems().next()` yields is the `initial` parameter. It must be a key when the store is non-empty.
- Concurrency between controller events is out of scope. Every handler runs to completion alone.
- Integer widths: datapath ids and ports are unbounded naturals. The source never does arithmetic on them.
- A frame shorter than 14 bytes makes `struct.unpack_from` raise before any state is touched. The model turns this into "no change, no shutdown".
- Broadcast.Broadcast.CalculateSpanningTreeCorrected: its contract states reachability coverage only, not the 2 × (keys − 1) port count proved for the as-written version.
- The design description also covers a union-find flood tree, a BFS route table with a cache, MAC learning, cookie-tagged rule deletion, LLDP filtering, free-port tracking and stopping after the first shutdown. These files contain none of them, so none is modelled.

## Findings

| source | as written | input that shows it | evidently intended | confidence | as-written member | corrected member |
|---|---|---|---|---|---|---|
| broadcast.py:108 | the inner loop scans `self.switches[dpid]`, the initial switch's list, on every pop instead of the popped `src_dpid`'s list | `switches = {1: [(1, 2, 1)], 2: [(2, 3, 1)]}`, initial switch 1: switch 3 is reachable but gets no flood ports | scan the popped switch's own links, treating a destination the store does not know as having none; the result then covers every switch reachable from the initial one (the FIXME at line 115 assumes only that the topology is connected) | high; not executed | `Broadcast.AsWrittenMissesTwoHopSwitch` | `Broadcast.Broadcast.CalculateSpanningTreeCorrected` |

`CalculateSpanningTree` stays the as-written model of `calculate_spanning_tree`.
No other part of the model consumes the tree, so nothing is switched over to
the corrected version.
