/** L2 forwarding records on the device's tunnels: adding and removing what an fdb message
    describes.  Python dictionaries are taken as sequences in their iteration order. */
module FdbTables {
  import opened Lbaas

  type Mac = string
  type Vtep = string
  type NetworkType = string

  const FLOODING: Mac := "00:00:00:00:00:00"

  datatype TunnelKey = TunnelKey(name: string, partition: string)

  datatype Entry = Entry(mac: Mac, ip: string)

  datatype Port = Port(vtep: Vtep, entries: seq<Entry>)

  datatype NetFdb = NetFdb(networkType: NetworkType, segmentId: string, ports: seq<Port>)

  type Records = map<Mac, Vtep>
  type Tunnels = map<TunnelKey, Records>

  function TunnelName(net: NetFdb): string {
    "tunnel-" + net.networkType + "-" + net.segmentId
  }

  /** Partition of the first tunnel with the name, in the device's listing order. */
  function TunnelFolder(listing: seq<TunnelKey>, name: string): Option<string> {
    if listing == [] then None
    else if listing[0].name == name then Some(listing[0].partition)
    else TunnelFolder(listing[1..], name)
  }

  /** The tunnel that the network's records go to. */
  function Target(listing: seq<TunnelKey>, net: NetFdb): Option<TunnelKey> {
    match TunnelFolder(listing, TunnelName(net))
    case None => None
    case Some(folder) => Some(TunnelKey(TunnelName(net), folder))
  }

  ghost predicate HasMac(entries: seq<Entry>, mac: Mac) {
    exists e :: 0 <= e < |entries| && entries[e].mac == mac
  }

  /** Port `p` is one of another VTEP and has an entry for the MAC, which is no flooding one. */
  ghost predicate PortHas(net: NetFdb, localIp: Vtep, mac: Mac, p: nat) {
    && p < |net.ports| && net.ports[p].vtep != localIp && mac != "00:00:00:00:00:00"
    && HasMac(net.ports[p].entries, mac)
  }

  /** The message describes the MAC in this network. */
  ghost predicate Describes(net: NetFdb, localIp: Vtep, mac: Mac) {
    exists p: nat :: PortHas(net, localIp, mac, p)
  }

  /** The last port to describe it does so. */
  ghost predicate LastSays(net: NetFdb, localIp: Vtep, mac: Mac, vtep: Vtep) {
    exists p: nat :: PortHas(net, localIp, mac, p) && net.ports[p].vtep == vtep &&
                     forall q: nat :: p < q ==> !PortHas(net, localIp, mac, q)
  }

  function MergeEntries(records: Records, vtep: Vtep, entries: seq<Entry>): Records {
    if entries == [] then records
    else
      var before := MergeEntries(records, vtep, entries[..|entries| - 1]);
      var mac := entries[|entries| - 1].mac;
      if mac == FLOODING then before else before[mac := vtep]
  }

  function MergePorts(ports: seq<Port>, localIp: Vtep): Records {
    if ports == [] then map[]
    else
      var before := MergePorts(ports[..|ports| - 1], localIp);
      var last := ports[|ports| - 1];
      if last.vtep == localIp then before else MergeEntries(before, last.vtep, last.entries)
  }

  function NetworkRecords(net: NetFdb, localIp: Vtep): Records {
    MergePorts(net.ports, localIp)
  }

  datatype Method = Add | Delete

  /** One table after its records were added (present MACs keep their endpoint) or deleted. */
  function Change(table: Records, records: Records, m: Method): Records {
    match m
    case Add => records + table
    case Delete => table - records.Keys
  }

  /** The change made on one tunnel, if the device has it. */
  function ChangeAt(tunnels: Tunnels, key: TunnelKey, records: Records, m: Method): Tunnels {
    if key in tunnels then tunnels[key := Change(tunnels[key], records, m)] else tunnels
  }

  function Operate(tunnels: Tunnels, listing: seq<TunnelKey>, localIp: Vtep, net: NetFdb, m: Method): Tunnels {
    var target := Target(listing, net);
    if target.None? then tunnels else ChangeAt(tunnels, target.value, NetworkRecords(net, localIp), m)
  }

  function OperateAll(tunnels: Tunnels, listing: seq<TunnelKey>, localIp: Vtep, nets: seq<NetFdb>, m: Method): Tunnels {
    if nets == [] then tunnels
    else Operate(OperateAll(tunnels, listing, localIp, nets[..|nets| - 1], m), listing, localIp, nets[|nets| - 1], m)
  }

  function OfType(fdb: seq<NetFdb>, t: NetworkType): seq<NetFdb> {
    if fdb == [] then []
    else OfType(fdb[..|fdb| - 1], t) + if fdb[|fdb| - 1].networkType == t then [fdb[|fdb| - 1]] else []
  }

  /** The networks in the order in which they are handled: first vxlan, then gre. */
  function Handled(fdb: seq<NetFdb>): seq<NetFdb> {
    OfType(fdb, "vxlan") + OfType(fdb, "gre")
  }

  class L2ServiceBuilder {
    var tunnels: Tunnels
    const listing: seq<TunnelKey>
    const localIp: Vtep

    constructor (tunnels: Tunnels, listing: seq<TunnelKey>, localIp: Vtep)
      ensures this.tunnels == tunnels && this.listing == listing && this.localIp == localIp
    {
      this.tunnels, this.listing, this.localIp := tunnels, listing, localIp;
    }

    method MergeVtepFdbs(vtep: Vtep, entries: seq<Entry>, fdbs: Records) returns (out: Records)
      ensures out == MergeEntries(fdbs, vtep, entries)
    {
      out := fdbs;
      for k := 0 to |entries|
        invariant out == MergeEntries(fdbs, vtep, entries[..k])
      {
        assert entries[..k + 1][..k] == entries[..k];
        if entries[k].mac == FLOODING {
          continue;
        }
        out := out[entries[k].mac := vtep];
      }
      assert entries[..|entries|] == entries;
    }

    method GetBigipNetworkFdbs(net: NetFdb) returns (fdbs: Records)
      ensures fdbs == NetworkRecords(net, localIp)
    {
      fdbs := map[];
      for k := 0 to |net.ports|
        invariant fdbs == MergePorts(net.ports[..k], localIp)
      {
        assert net.ports[..k + 1][..k] == net.ports[..k];
        if net.ports[k].vtep == localIp {
          continue;
        }
        fdbs := MergeVtepFdbs(net.ports[k].vtep, net.ports[k].entries, fdbs);
      }
      assert net.ports[..|net.ports|] == net.ports;
    }

    /** One REST call: create the record unless the MAC is there, or delete it if it is. */
    method ApplyEntry(key: TunnelKey, mac: Mac, vtep: Vtep, m: Method)
      modifies this`tunnels
      ensures tunnels == ChangeAt(old(tunnels), key, map[mac := vtep], m)
    {
      if key in tunnels {
        ghost var table := tunnels[key];
        if m.Add? && mac !in tunnels[key] {
          tunnels := tunnels[key := tunnels[key][mac := vtep]];
        } else if m.Delete? && mac in tunnels[key] {
          tunnels := tunnels[key := tunnels[key] - {mac}];
        }
        assert tunnels[key] == Change(table, map[mac := vtep], m);
      }
    }

    method ApplyEntries(key: TunnelKey, fdbs: Records, m: Method)
      modifies this`tunnels
      ensures tunnels == ChangeAt(old(tunnels), key, fdbs, m)
    {
      ghost var before := tunnels;
      var macs := fdbs.Keys;
      NothingToChange(tunnels, key, fdbs - macs, m);
      while macs != {}
        invariant macs <= fdbs.Keys
        invariant tunnels == ChangeAt(before, key, fdbs - macs, m)
        decreases |macs|
      {
        var mac :| mac in macs;
        OneMore(before, key, fdbs, macs, mac, m);
        ApplyEntry(key, mac, fdbs[mac], m);
        macs := macs - {mac};
      }
      assert fdbs - {} == fdbs;
    }

    method OperateBigipFdb(fdb: seq<NetFdb>, t: NetworkType, m: Method)
      modifies this`tunnels
      ensures tunnels == OperateAll(old(tunnels), listing, localIp, OfType(fdb, t), m)
    {
      for k := 0 to |fdb|
        invariant tunnels == OperateAll(old(tunnels), listing, localIp, OfType(fdb[..k], t), m)
      {
        assert fdb[..k + 1][..k] == fdb[..k];
        var net := fdb[k];
        if net.networkType == t {
          assert (OfType(fdb[..k], t) + [net])[..|OfType(fdb[..k], t)|] == OfType(fdb[..k], t);
          var folder := TunnelFolder(listing, TunnelName(net));
          if folder.Some? {
            var fdbs := GetBigipNetworkFdbs(net);
            if |fdbs| > 0 {
              ApplyEntries(TunnelKey(TunnelName(net), folder.value), fdbs, m);
            } else {
              NothingToChange(tunnels, Target(listing, net).value, fdbs, m);
            }
          }
        } else {
          assert OfType(fdb[..k], t) + [] == OfType(fdb[..k], t);
        }
      }
      assert fdb[..|fdb|] == fdb;
    }

    method AddBigipFdb(fdb: seq<NetFdb>)
      modifies this`tunnels
      ensures tunnels == OperateAll(old(tunnels), listing, localIp, Handled(fdb), Add)
    {
      OperateBigipFdb(fdb, "vxlan", Add);
      OperateBigipFdb(fdb, "gre", Add);
      OperateAppend(old(tunnels), listing, localIp, OfType(fdb, "vxlan"), OfType(fdb, "gre"), Add);
    }

    method RemoveBigipFdb(fdb: seq<NetFdb>)
      modifies this`tunnels
      ensures tunnels == OperateAll(old(tunnels), listing, localIp, Handled(fdb), Delete)
    {
      OperateBigipFdb(fdb, "vxlan", Delete);
      OperateBigipFdb(fdb, "gre", Delete);
      OperateAppend(old(tunnels), listing, localIp, OfType(fdb, "vxlan"), OfType(fdb, "gre"), Delete);
    }
  }

  lemma OneMore(tunnels: Tunnels, key: TunnelKey, fdbs: Records, macs: set<Mac>, mac: Mac, m: Method)
    requires macs <= fdbs.Keys && mac in macs
    ensures ChangeAt(ChangeAt(tunnels, key, fdbs - macs, m), key, map[mac := fdbs[mac]], m) ==
            ChangeAt(tunnels, key, fdbs - (macs - {mac}), m)
  {
    if key in tunnels {
      assert Change(Change(tunnels[key], fdbs - macs, m), map[mac := fdbs[mac]], m) ==
        Change(tunnels[key], fdbs - (macs - {mac}), m);
    }
  }

  lemma NothingToChange(tunnels: Tunnels, key: TunnelKey, fdbs: Records, m: Method)
    requires fdbs == map[]
    ensures ChangeAt(tunnels, key, fdbs, m) == tunnels
  {
    assert key in tunnels ==> Change(tunnels[key], fdbs, m) == tunnels[key];
  }

  lemma {:induction false} OperateAppend(tunnels: Tunnels, listing: seq<TunnelKey>, localIp: Vtep,
                                         a: seq<NetFdb>, b: seq<NetFdb>, m: Method)
    ensures OperateAll(tunnels, listing, localIp, a + b, m) ==
            OperateAll(OperateAll(tunnels, listing, localIp, a, m), listing, localIp, b, m)
  {
    if b == [] {
      assert a + b == a;
    } else {
      OperateAppend(tunnels, listing, localIp, a, b[..|b| - 1], m);
      assert (a + b)[..|a + b| - 1] == a + b[..|b| - 1];
    }
  }

  // ----- Laws

  lemma {:induction false} MergedEntries(records: Records, vtep: Vtep, entries: seq<Entry>, mac: Mac)
    ensures var merged := MergeEntries(records, vtep, entries);
            var fromHere := mac != FLOODING && HasMac(entries, mac);
            && (mac in merged <==> mac in records || fromHere)
            && (mac in merged ==> merged[mac] == if fromHere then vtep else records[mac])
  {
    if entries != [] {
      var n := |entries| - 1;
      MergedEntries(records, vtep, entries[..n], mac);
      assert HasMac(entries, mac) <==> HasMac(entries[..n], mac) || entries[n].mac == mac by {
        assert forall e :: 0 <= e < n ==> entries[..n][e] == entries[e];
      }
    }
  }

  /** A MAC has a record exactly when a port of another VTEP describes it and it is no flooding
      entry; its endpoint is that of the last such port. */
  lemma {:induction false} RecordsAreDescribed(net: NetFdb, localIp: Vtep, mac: Mac)
    ensures mac in NetworkRecords(net, localIp) <==> Describes(net, localIp, mac)
    ensures mac in NetworkRecords(net, localIp) ==> LastSays(net, localIp, mac, NetworkRecords(net, localIp)[mac])
    decreases |net.ports|
  {
    if net.ports != [] {
      var n := |net.ports| - 1;
      var last, shorter := net.ports[n], net.(ports := net.ports[..n]);
      RecordsAreDescribed(shorter, localIp, mac);
      MergedEntries(NetworkRecords(shorter, localIp), last.vtep, last.entries, mac);
      LastPort(net, localIp, mac);
    }
  }

  /** The last port has its say before all others. */
  lemma LastPort(net: NetFdb, localIp: Vtep, mac: Mac)
    requires net.ports != []
    ensures var n := |net.ports| - 1;
            var shorter, here := net.(ports := net.ports[..n]), PortHas(net, localIp, mac, n);
            && (Describes(net, localIp, mac) <==> Describes(shorter, localIp, mac) || here)
            && (here ==> LastSays(net, localIp, mac, net.ports[n].vtep))
            && (!here ==> forall vtep ::
                  LastSays(shorter, localIp, mac, vtep) ==> LastSays(net, localIp, mac, vtep))
  {
    var n := |net.ports| - 1;
    var shorter := net.(ports := net.ports[..n]);
    forall p: nat | p < n
      ensures PortHas(shorter, localIp, mac, p) <==> PortHas(net, localIp, mac, p)
    {
      assert shorter.ports[p] == net.ports[p];
    }
  }

  /** The network's records go to the tunnel: the first that the device lists under the name
      made of the network's type and segment. */
  ghost predicate GoesTo(listing: seq<TunnelKey>, net: NetFdb, key: TunnelKey) {
    && key.name == "tunnel-" + net.networkType + "-" + net.segmentId
    && exists k: nat :: ListedAt(listing, key, k)
  }

  ghost predicate ListedAt(listing: seq<TunnelKey>, key: TunnelKey, k: nat) {
    k < |listing| && listing[k] == key && forall j :: 0 <= j < k ==> listing[j].name != key.name
  }

  lemma {:induction false} FolderIsListed(listing: seq<TunnelKey>, name: string, folder: string)
    ensures TunnelFolder(listing, name) == Some(folder) <==>
            exists k: nat :: ListedAt(listing, TunnelKey(name, folder), k)
  {
    if listing != [] {
      var key := TunnelKey(name, folder);
      FolderIsListed(listing[1..], name, folder);
      if listing[0].name == name {
        assert listing[0].partition == folder ==> ListedAt(listing, key, 0);
      } else {
        forall k: nat
          ensures ListedAt(listing, key, k) <==> k > 0 && ListedAt(listing[1..], key, k - 1)
        {
          ListedAtTail(listing, key, k);
        }
        if k: nat :| ListedAt(listing[1..], key, k) {
          assert ListedAt(listing, key, k + 1);
        }
      }
    }
  }

  lemma ListedAtTail(listing: seq<TunnelKey>, key: TunnelKey, k: nat)
    requires listing != [] && listing[0].name != key.name
    ensures ListedAt(listing, key, k) <==> k > 0 && ListedAt(listing[1..], key, k - 1)
  {
    if k > 0 && ListedAt(listing[1..], key, k - 1) {
      forall j | 0 <= j < k
        ensures listing[j].name != key.name
      {
        assert j > 0 ==> listing[j] == listing[1..][j - 1];
      }
    }
  }

  /** Network `i` of the list has a record for the MAC on the tunnel. */
  ghost predicate Names(listing: seq<TunnelKey>, localIp: Vtep, nets: seq<NetFdb>, i: nat, key: TunnelKey, mac: Mac) {
    i < |nets| && GoesTo(listing, nets[i], key) && Describes(nets[i], localIp, mac)
  }

  lemma NamesByTarget(listing: seq<TunnelKey>, localIp: Vtep, nets: seq<NetFdb>, i: nat, key: TunnelKey, mac: Mac)
    requires i < |nets|
    ensures Names(listing, localIp, nets, i, key, mac) <==>
            Target(listing, nets[i]) == Some(key) && mac in NetworkRecords(nets[i], localIp)
  {
    FolderIsListed(listing, TunnelName(nets[i]), key.partition);
    RecordsAreDescribed(nets[i], localIp, mac);
  }

  ghost predicate FirstToName(listing: seq<TunnelKey>, localIp: Vtep, nets: seq<NetFdb>, i: nat, key: TunnelKey,
                              mac: Mac) {
    && Names(listing, localIp, nets, i, key, mac)
    && forall j: nat :: j < i ==> !Names(listing, localIp, nets, j, key, mac)
  }

  ghost predicate Named(listing: seq<TunnelKey>, localIp: Vtep, nets: seq<NetFdb>, key: TunnelKey, mac: Mac) {
    exists i: nat :: Names(listing, localIp, nets, i, key, mac)
  }

  lemma NamedStep(listing: seq<TunnelKey>, localIp: Vtep, nets: seq<NetFdb>, key: TunnelKey, mac: Mac)
    requires nets != []
    ensures var n := |nets| - 1;
            Named(listing, localIp, nets, key, mac) <==>
            Named(listing, localIp, nets[..n], key, mac) || Names(listing, localIp, nets, n, key, mac)
  {
    var n := |nets| - 1;
    assert forall i: nat :: i < n ==>
      (Names(listing, localIp, nets[..n], i, key, mac) <==> Names(listing, localIp, nets, i, key, mac));
  }

  /** After deleting, a tunnel has lost exactly the named MACs. */
  lemma {:induction false} DeleteEffect(tunnels: Tunnels, listing: seq<TunnelKey>, localIp: Vtep, nets: seq<NetFdb>,
                                        key: TunnelKey, mac: Mac)
    ensures var after := OperateAll(tunnels, listing, localIp, nets, Delete);
            && (key in after <==> key in tunnels)
            && (key in tunnels ==>
                  && (mac in after[key] <==> mac in tunnels[key] && !Named(listing, localIp, nets, key, mac))
                  && (mac in after[key] ==> after[key][mac] == tunnels[key][mac]))
  {
    if nets != [] {
      DeleteEffect(tunnels, listing, localIp, nets[..|nets| - 1], key, mac);
      NamedStep(listing, localIp, nets, key, mac);
      NamesByTarget(listing, localIp, nets, |nets| - 1, key, mac);
    }
  }

  /** After adding, a tunnel has its earlier records untouched and the named MACs besides,
      each with the endpoint given by the first network that names it. */
  lemma {:induction false} AddEffect(tunnels: Tunnels, listing: seq<TunnelKey>, localIp: Vtep, nets: seq<NetFdb>,
                                     key: TunnelKey, mac: Mac)
    ensures var after := OperateAll(tunnels, listing, localIp, nets, Add);
            && (key in after <==> key in tunnels)
            && (key in tunnels ==>
                  && (mac in after[key] <==> mac in tunnels[key] || Named(listing, localIp, nets, key, mac))
                  && (mac in tunnels[key] ==> after[key][mac] == tunnels[key][mac])
                  && (mac in after[key] && mac !in tunnels[key] ==>
                        exists i: nat :: FirstToName(listing, localIp, nets, i, key, mac) &&
                                         LastSays(nets[i], localIp, mac, after[key][mac])))
  {
    if nets != [] {
      var n := |nets| - 1;
      AddEffect(tunnels, listing, localIp, nets[..n], key, mac);
      NamedStep(listing, localIp, nets, key, mac);
      NamesByTarget(listing, localIp, nets, n, key, mac);
      RecordsAreDescribed(nets[n], localIp, mac);
      assert forall i: nat :: i < n ==>
        (Names(listing, localIp, nets[..n], i, key, mac) <==> Names(listing, localIp, nets, i, key, mac));
      assert forall i: nat :: i < n && FirstToName(listing, localIp, nets[..n], i, key, mac) ==>
        FirstToName(listing, localIp, nets, i, key, mac);
      if Names(listing, localIp, nets, n, key, mac) && !Named(listing, localIp, nets[..n], key, mac) {
        assert FirstToName(listing, localIp, nets, n, key, mac);
      }
    }
  }

  lemma {:induction false} TunnelsKept(tunnels: Tunnels, listing: seq<TunnelKey>, localIp: Vtep, nets: seq<NetFdb>,
                                       m: Method)
    ensures OperateAll(tunnels, listing, localIp, nets, m).Keys == tunnels.Keys
  {
    if nets != [] {
      TunnelsKept(tunnels, listing, localIp, nets[..|nets| - 1], m);
    }
  }

  lemma SameTunnels(a: Tunnels, b: Tunnels)
    requires a.Keys == b.Keys
    requires forall key, mac :: key in a ==>
               (mac in a[key] <==> mac in b[key]) && (mac in a[key] ==> a[key][mac] == b[key][mac])
    ensures a == b
  {
    forall key | key in a
      ensures a[key] == b[key]
    {
      assert forall mac :: mac in a[key] <==> mac in b[key];
    }
  }

  // ----- Whole messages

  /** Networks of a type are handled in the order of the message. */
  lemma {:induction false} OfTypeInOrder(a: seq<NetFdb>, b: seq<NetFdb>, t: NetworkType)
    ensures OfType(a + b, t) == OfType(a, t) + OfType(b, t)
  {
    if b == [] {
      assert a + b == a;
    } else {
      OfTypeInOrder(a, b[..|b| - 1], t);
      assert (a + b)[..|a + b| - 1] == a + b[..|b| - 1];
    }
  }

  lemma {:induction false} OfTypeHas(fdb: seq<NetFdb>, t: NetworkType, net: NetFdb)
    ensures net in OfType(fdb, t) <==> net in fdb && net.networkType == t
  {
    if fdb != [] {
      OfTypeHas(fdb[..|fdb| - 1], t, net);
      assert net in fdb <==> net in fdb[..|fdb| - 1] || net == fdb[|fdb| - 1];
    }
  }

  /** Networks of these two types are handled, and no others. */
  lemma HandledHas(fdb: seq<NetFdb>, net: NetFdb)
    ensures net in Handled(fdb) <==> net in fdb && (net.networkType == "vxlan" || net.networkType == "gre")
  {
    OfTypeHas(fdb, "vxlan", net);
    OfTypeHas(fdb, "gre", net);
  }

  ghost predicate NamesIt(listing: seq<TunnelKey>, localIp: Vtep, net: NetFdb, key: TunnelKey, mac: Mac) {
    && (net.networkType == "vxlan" || net.networkType == "gre")
    && GoesTo(listing, net, key) && Describes(net, localIp, mac)
  }

  /** Some network of the message that is handled has a record for the MAC on the tunnel. */
  ghost predicate InMessage(listing: seq<TunnelKey>, localIp: Vtep, fdb: seq<NetFdb>, key: TunnelKey, mac: Mac) {
    exists i :: 0 <= i < |fdb| && NamesIt(listing, localIp, fdb[i], key, mac)
  }

  lemma NamedInMessage(listing: seq<TunnelKey>, localIp: Vtep, fdb: seq<NetFdb>, key: TunnelKey, mac: Mac)
    ensures Named(listing, localIp, Handled(fdb), key, mac) <==> InMessage(listing, localIp, fdb, key, mac)
  {
    var nets := Handled(fdb);
    if i: nat :| Names(listing, localIp, nets, i, key, mac) {
      HandledHas(fdb, nets[i]);
    }
    if i :| 0 <= i < |fdb| && NamesIt(listing, localIp, fdb[i], key, mac) {
      HandledHas(fdb, fdb[i]);
      var k :| 0 <= k < |nets| && nets[k] == fdb[i];
      assert Names(listing, localIp, nets, k, key, mac);
    }
  }

  /** What a message does to a table.  Adding keeps the records that were there and creates one
      for every other MAC that the message has on the tunnel, with an endpoint that the message
      gives it; deleting takes these MACs away.  Nothing else changes. */
  lemma MessageEffect(tunnels: Tunnels, listing: seq<TunnelKey>, localIp: Vtep, fdb: seq<NetFdb>, m: Method,
                      key: TunnelKey, mac: Mac)
    requires key in tunnels
    ensures var was, after := tunnels[key], OperateAll(tunnels, listing, localIp, Handled(fdb), m);
            var named := InMessage(listing, localIp, fdb, key, mac);
            && key in after
            && (mac in after[key] <==> if m == Add then mac in was || named else mac in was && !named)
            && (mac in was && mac in after[key] ==> after[key][mac] == was[mac])
            && (mac !in was && mac in after[key] ==>
                  exists net :: net in fdb && NamesIt(listing, localIp, net, key, mac) &&
                                LastSays(net, localIp, mac, after[key][mac]))
  {
    var nets := Handled(fdb);
    NamedInMessage(listing, localIp, fdb, key, mac);
    AddEffect(tunnels, listing, localIp, nets, key, mac);
    DeleteEffect(tunnels, listing, localIp, nets, key, mac);
    var after := OperateAll(tunnels, listing, localIp, nets, m);
    if mac !in tunnels[key] && mac in after[key] {
      var i: nat :| FirstToName(listing, localIp, nets, i, key, mac) &&
                    LastSays(nets[i], localIp, mac, after[key][mac]);
      HandledHas(fdb, nets[i]);
    }
  }

  /** Adding the same message twice changes nothing more. */
  lemma AddIsIdempotent(tunnels: Tunnels, listing: seq<TunnelKey>, localIp: Vtep, fdb: seq<NetFdb>)
    ensures var once := OperateAll(tunnels, listing, localIp, Handled(fdb), Add);
            OperateAll(once, listing, localIp, Handled(fdb), Add) == once
  {
    var once := OperateAll(tunnels, listing, localIp, Handled(fdb), Add);
    var twice := OperateAll(once, listing, localIp, Handled(fdb), Add);
    TunnelsKept(once, listing, localIp, Handled(fdb), Add);
    forall key, mac
      ensures key in once ==> (mac in twice[key] <==> mac in once[key])
      ensures key in once && mac in once[key] && mac in twice[key] ==> twice[key][mac] == once[key][mac]
    {
      AddEffect(tunnels, listing, localIp, Handled(fdb), key, mac);
      AddEffect(once, listing, localIp, Handled(fdb), key, mac);
    }
    SameTunnels(once, twice);
  }

  /** Removing a message after adding it restores the tables exactly when the device had
      none of its MACs on the tunnels concerned. */
  lemma RemoveUndoesAdd(tunnels: Tunnels, listing: seq<TunnelKey>, localIp: Vtep, fdb: seq<NetFdb>)
    ensures var added := OperateAll(tunnels, listing, localIp, Handled(fdb), Add);
            OperateAll(added, listing, localIp, Handled(fdb), Delete) == tunnels <==>
            forall key, mac :: key in tunnels && InMessage(listing, localIp, fdb, key, mac) ==> mac !in tunnels[key]
  {
    var nets := Handled(fdb);
    var added := OperateAll(tunnels, listing, localIp, nets, Add);
    var removed := OperateAll(added, listing, localIp, nets, Delete);
    TunnelsKept(tunnels, listing, localIp, nets, Add);
    TunnelsKept(added, listing, localIp, nets, Delete);
    forall key, mac
      ensures key in tunnels ==>
                && (mac in removed[key] <==> mac in tunnels[key] && !InMessage(listing, localIp, fdb, key, mac))
                && (mac in removed[key] ==> removed[key][mac] == tunnels[key][mac])
    {
      NamedInMessage(listing, localIp, fdb, key, mac);
      AddEffect(tunnels, listing, localIp, nets, key, mac);
      DeleteEffect(added, listing, localIp, nets, key, mac);
    }
    if forall key, mac :: key in tunnels && InMessage(listing, localIp, fdb, key, mac) ==> mac !in tunnels[key] {
      SameTunnels(removed, tunnels);
    }
  }

  /** Nothing outside the message is touched by either operation. */
  lemma OthersUntouched(tunnels: Tunnels, listing: seq<TunnelKey>, localIp: Vtep, fdb: seq<NetFdb>, m: Method,
                        key: TunnelKey, mac: Mac)
    requires key in tunnels && !InMessage(listing, localIp, fdb, key, mac)
    ensures var after := OperateAll(tunnels, listing, localIp, Handled(fdb), m);
            && key in after && (mac in after[key] <==> mac in tunnels[key])
            && (mac in tunnels[key] ==> after[key][mac] == tunnels[key][mac])
  {
    MessageEffect(tunnels, listing, localIp, fdb, m, key, mac);
  }
}
