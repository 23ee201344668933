/**
 The port-security application: it records, per (datapath id, ingress port),
 the distinct source MAC addresses seen in packet-ins, and asks for the port to
 be shut down whenever a newly recorded address makes that list longer than 8.
 */
module PortSecurity {
  import opened Wrappers
  import opened Topology
  import opened Packet

  /** More addresses than this on one port shut the port down. */
  const MAX_MACS_PER_PORT: nat := 8

  /** A switch port as the pair (datapath id, in_port). */
  type PortKey = (Dpid, Port)

  /** The `port_to_mac` dictionary. */
  type PortTable = map<PortKey, seq<Mac>>

  /** No address occurs twice. */
  ghost predicate NoDuplicates(s: seq<Mac>)
  {
    forall i, j :: 0 <= i < j < |s| ==> s[i] != s[j]
  }

  /** A duplicate-free list is its duplicate-free prefix followed by an address not in it. */
  lemma NoDuplicatesSplit(s: seq<Mac>)
    requires s != [] && NoDuplicates(s)
    ensures NoDuplicates(s[..|s| - 1]) && s[|s| - 1] !in s[..|s| - 1]
  {
    var pre := s[..|s| - 1];
    assert forall i :: 0 <= i < |pre| ==> pre[i] == s[i];
  }

  /** Every recorded list is non-empty and free of duplicates. */
  ghost predicate ValidTable(t: PortTable)
  {
    forall k :: k in t ==> t[k] != [] && NoDuplicates(t[k])
  }

  /** The new table and the shutdown request (if any) after one source address is seen. */
  datatype Observation = Observation(table: PortTable, shutdown: Option<PortKey>)

  /** What the handler does with source address `src` seen on port `k`. */
  function Observe(t: PortTable, k: PortKey, src: Mac): (o: Observation)
    ensures o.table.Keys == t.Keys + {k}
    ensures forall k' :: k' in t && k' != k ==> o.table[k'] == t[k']
    ensures src in o.table[k]
    ensures k !in t ==> o.table[k] == [src]
    ensures k in t && src in t[k] ==> o.table == t
    ensures k in t && src !in t[k] ==> o.table[k] == t[k] + [src]
    ensures o.shutdown.Some? <==> k in t && src !in t[k] && |t[k]| + 1 > MAX_MACS_PER_PORT
    ensures o.shutdown.Some? ==> o.shutdown.value == k
  {
    if k !in t then Observation(t[k := [src]], None)
    else if src in t[k] then Observation(t, None)
    else
      var macs := t[k] + [src];
      Observation(t[k := macs], if |macs| > MAX_MACS_PER_PORT then Some(k) else None)
  }

  /** Observing an address keeps every list non-empty and duplicate-free. */
  lemma ObservePreservesValid(t: PortTable, k: PortKey, src: Mac)
    requires ValidTable(t)
    ensures ValidTable(Observe(t, k, src).table)
  {
    var o := Observe(t, k, src);
    if k in t && src !in t[k] {
      var s := o.table[k];
      forall i, j | 0 <= i < j < |s|
        ensures s[i] != s[j]
      {
        if j == |t[k]| {
          assert s[i] == t[k][i];
        } else {
          assert s[i] == t[k][i] && s[j] == t[k][j];
        }
      }
    }
  }

  /** A new address on a known port is appended, and shuts the port down once the list passes 8. */
  lemma ObserveNewAddress(t: PortTable, k: PortKey, x: Mac)
    requires k in t && x !in t[k]
    ensures Observe(t, k, x).table == t[k := t[k] + [x]]
    ensures Observe(t, k, x).shutdown == if |t[k]| + 1 > MAX_MACS_PER_PORT then Some(k) else None
  {
  }

  /** The table and the number of shutdowns after seeing `srcs` in order on port `k`. */
  function ObserveAll(t: PortTable, k: PortKey, srcs: seq<Mac>): (r: (PortTable, nat))
    decreases |srcs|
  {
    if srcs == [] then (t, 0)
    else
      var before := ObserveAll(t, k, srcs[..|srcs| - 1]);
      var o := Observe(before.0, k, srcs[|srcs| - 1]);
      (o.table, before.1 + if o.shutdown.Some? then 1 else 0)
  }

  /** On a port not seen before, distinct addresses are recorded in the order they arrive. */
  lemma {:induction false} DistinctAddressesRecorded(t: PortTable, k: PortKey, srcs: seq<Mac>)
    requires k !in t && srcs != [] && NoDuplicates(srcs)
    ensures k in ObserveAll(t, k, srcs).0 && ObserveAll(t, k, srcs).0[k] == srcs
    decreases |srcs|
  {
    var pre := srcs[..|srcs| - 1];
    var x := srcs[|srcs| - 1];
    if pre == [] {
      assert srcs == [x];
    } else {
      NoDuplicatesSplit(srcs);
      DistinctAddressesRecorded(t, k, pre);
      assert pre + [x] == srcs;
    }
  }

  /** Packets on port `k` leave every other port's list as it was. */
  lemma {:induction false} ObserveAllOtherPorts(t: PortTable, k: PortKey, srcs: seq<Mac>, other: PortKey)
    requires other != k
    ensures other in ObserveAll(t, k, srcs).0 <==> other in t
    ensures other in t ==> ObserveAll(t, k, srcs).0[other] == t[other]
    decreases |srcs|
  {
    if srcs != [] {
      ObserveAllOtherPorts(t, k, srcs[..|srcs| - 1], other);
    }
  }

  /**
   Threshold trigger: on a port not seen before, n distinct addresses cause
   n - 8 shutdowns: none for n <= 8, one for the ninth and one more for each
   further address.
   */
  lemma {:induction false} DistinctAddressesShutdowns(t: PortTable, k: PortKey, srcs: seq<Mac>)
    requires k !in t && srcs != [] && NoDuplicates(srcs)
    ensures ObserveAll(t, k, srcs).1 == if |srcs| > MAX_MACS_PER_PORT then |srcs| - MAX_MACS_PER_PORT else 0
    decreases |srcs|
  {
    var pre := srcs[..|srcs| - 1];
    var x := srcs[|srcs| - 1];
    if pre != [] {
      NoDuplicatesSplit(srcs);
      DistinctAddressesShutdowns(t, k, pre);
      DistinctAddressesRecorded(t, k, pre);
    }
  }

  /** Seeing again only addresses a port already holds changes nothing and shuts nothing down. */
  lemma {:induction false} KnownAddressesSilent(t: PortTable, k: PortKey, srcs: seq<Mac>)
    requires k in t && forall i :: 0 <= i < |srcs| ==> srcs[i] in t[k]
    ensures ObserveAll(t, k, srcs) == (t, 0)
    decreases |srcs|
  {
    if srcs != [] {
      var pre := srcs[..|srcs| - 1];
      assert forall i :: 0 <= i < |pre| ==> pre[i] == srcs[i];
      KnownAddressesSilent(t, k, pre);
    }
  }

  /**
   Eight distinct addresses on a fresh port cause no shutdown, a ninth causes
   exactly one, and seeing any of the nine again causes none.
   */
  lemma NinthAddressShutsPortOnce(k: PortKey, a: seq<Mac>, again: seq<Mac>)
    requires |a| == 9 && NoDuplicates(a)
    requires forall i :: 0 <= i < |again| ==> again[i] in a
    ensures ObserveAll(map[], k, a[..8]).1 == 0
    ensures ObserveAll(map[], k, a).1 == 1
    ensures ObserveAll(ObserveAll(map[], k, a).0, k, again).1 == 0
  {
    DistinctAddressesShutdowns(map[], k, a[..8]);
    DistinctAddressesShutdowns(map[], k, a);
    DistinctAddressesRecorded(map[], k, a);
    KnownAddressesSilent(ObserveAll(map[], k, a).0, k, again);
  }

  class PortSecurity {
    /** Distinct source addresses seen per (datapath id, in_port). */
    var portToMac: PortTable

    ghost predicate Valid()
      reads this
    {
      ValidTable(portToMac)
    }

    constructor ()
      ensures Valid() && portToMac == map[]
    {
      portToMac := map[];
    }

    /**
     Packet-in handler. A frame too short for the Ethernet header makes the
     unpacking fail before any state is touched; otherwise the source address
     is observed on (dpid, in_port) and a shutdown of that port may be issued.
     */
    method NewPacket(dpid: Dpid, inPort: Port, data: seq<byte>) returns (shutdown: Option<PortKey>)
      requires Valid()
      modifies this
      ensures Valid()
      ensures ParseHeader(data).None? ==> portToMac == old(portToMac) && shutdown == None
      ensures ParseHeader(data).Some? ==>
        Observation(portToMac, shutdown) == Observe(old(portToMac), (dpid, inPort), ParseHeader(data).value.src)
    {
      shutdown := None;
      var header := ParseHeader(data);
      if header.None? {
        return;
      }
      var src := header.value.src;
      var k := (dpid, inPort);
      ObservePreservesValid(portToMac, k, src);
      if k !in portToMac {
        portToMac := portToMac[k := [src]];
      } else if src !in portToMac[k] {
        portToMac := portToMac[k := portToMac[k] + [src]];
        if |portToMac[k]| > MAX_MACS_PER_PORT {
          shutdown := Some(k);
        }
      }
    }
  }
}
