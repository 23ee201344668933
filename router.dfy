/**
 The router application: it keeps the same topology graph store as the
 broadcast application, updated by the same four topology events, and ignores
 packet-in events.
 */
module Router {
  import opened Topology
  import opened Packet

  class Router {
    /** A dictionary from datapath id to its list of connected neighbours. */
    var switches: Switches

    constructor ()
      ensures switches == map[]
    {
      switches := map[];
    }

    /** Switch enter event. */
    method AddSwitch(id: Dpid)
      modifies this
      ensures switches == WithSwitch(old(switches), id)
    {
      switches := switches[id := []];
    }

    /** Switch leave event; `del` raises on an unknown id. */
    method DeleteSwitch(id: Dpid)
      requires id in switches
      modifies this
      ensures switches == WithoutSwitch(old(switches), id)
    {
      switches := switches - {id};
    }

    /** Link add event; ignored when the source switch is unknown. */
    method AddLink(src: Dpid, srcPort: Port, dst: Dpid, dstPort: Port)
      modifies this
      ensures switches == WithLink(old(switches), src, Link(srcPort, dst, dstPort))
    {
      if src in switches {
        var link := Link(srcPort, dst, dstPort);
        switches := switches[src := switches[src] + [link]];
      }
    }

    /** Link delete event; `list.remove` raises when the link was never recorded. */
    method DeleteLink(src: Dpid, srcPort: Port, dst: Dpid, dstPort: Port)
      requires src in switches ==> Link(srcPort, dst, dstPort) in switches[src]
      modifies this
      ensures switches == WithoutLink(old(switches), src, Link(srcPort, dst, dstPort))
    {
      if src in switches {
        var link := Link(srcPort, dst, dstPort);
        switches := switches[src := RemoveFirst(switches[src], link)];
      }
    }

    /** Packet-in event: the handler does nothing. */
    method NewPacket(dpid: Dpid, inPort: Port, data: seq<byte>)
      ensures switches == old(switches)
    {
    }
  }
}
