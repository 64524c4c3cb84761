/** When machine deployment and machine class names are pairwise distinct. */
module MachineNames {
  import opened Machines

  /** The zone ends in a dash followed by the other zone. */
  predicate EndsInDash(zone: string, other: string) {
    |zone| > |other| && zone[|zone| - |other| - 1..] == "-" + other
  }

  /** The first zone ends in a dash and the second, and the second pool's name takes up the rest of it. */
  predicate Absorbs(p1: string, z1: string, p2: string, z2: string) {
    EndsInDash(z1, z2) && p2 == p1 + "-" + z1[..|z1| - |z2| - 1]
  }

  lemma NameParts(namespace: string, pool: string, zone: string)
    ensures
      var n := DeploymentName(namespace, pool, zone);
      && |n| == |namespace| + 1 + |pool| + 1 + |zone|
      && n[..|namespace| + 1] == namespace + "-"
      && n[|namespace| + 1..] == pool + "-" + zone
  {
    assert DeploymentName(namespace, pool, zone) == (namespace + "-") + (pool + "-" + zone);
  }

  lemma SamePairName(p1: string, z1: string, p2: string, z2: string)
    requires p1 + "-" + z1 == p2 + "-" + z2 && |z1| >= |z2|
    ensures (p1 == p2 && z1 == z2) || Absorbs(p1, z1, p2, z2)
  {
    var s := p1 + "-" + z1;
    assert s == p2 + "-" + z2;
    assert s[|s| - |z1|..] == z1 && s[|s| - |z2| - 1..] == "-" + z2;
    if |z1| > |z2| {
      var cut := |z1| - |z2| - 1;
      assert z1[cut..] == s[|s| - |z2| - 1..];
      assert s[..|s| - |z2| - 1] == p2;
      assert s[..|s| - |z2| - 1] == p1 + "-" + z1[..cut];
    } else {
      assert s[|s| - |z2|..] == z2;
      assert s[..|s| - |z1| - 1] == p1 && s[..|s| - |z2| - 1] == p2;
    }
  }

  /** Two pairs of pool and zone share a name: they are one pair, or the dash is drawn in two places. */
  predicate Clash(p1: string, z1: string, p2: string, z2: string) {
    (p1 == p2 && z1 == z2) || Absorbs(p1, z1, p2, z2) || Absorbs(p2, z2, p1, z1)
  }

  lemma AbsorbedName(namespace: string, p1: string, z1: string, p2: string, z2: string)
    requires Absorbs(p1, z1, p2, z2)
    ensures DeploymentName(namespace, p1, z1) == DeploymentName(namespace, p2, z2)
  {
    var front := z1[..|z1| - |z2| - 1];
    assert z1 == front + ("-" + z2);
    assert p1 + "-" + z1 == p2 + "-" + z2;
    NameParts(namespace, p1, z1);
    NameParts(namespace, p2, z2);
    assert DeploymentName(namespace, p1, z1) == (namespace + "-") + (p1 + "-" + z1);
    assert DeploymentName(namespace, p2, z2) == (namespace + "-") + (p2 + "-" + z2);
  }

  /** Exactly when two given pairs of pool and zone get one deployment name. */
  lemma NamesClashIff(namespace: string, p1: string, z1: string, p2: string, z2: string)
    ensures DeploymentName(namespace, p1, z1) == DeploymentName(namespace, p2, z2) <==> Clash(p1, z1, p2, z2)
  {
    if DeploymentName(namespace, p1, z1) == DeploymentName(namespace, p2, z2) {
      NameParts(namespace, p1, z1);
      NameParts(namespace, p2, z2);
      if |z1| >= |z2| {
        SamePairName(p1, z1, p2, z2);
      } else {
        SamePairName(p2, z2, p1, z1);
      }
    } else {
      if Absorbs(p1, z1, p2, z2) {
        AbsorbedName(namespace, p1, z1, p2, z2);
      }
      if Absorbs(p2, z2, p1, z1) {
        AbsorbedName(namespace, p2, z2, p1, z1);
      }
    }
  }

  // ---------- lifted to the generated lists ----------

  /** Pool p has a zone z. */
  predicate Position(rs: seq<Resolved>, p: int, z: int) {
    0 <= p < |rs| && 0 <= z < |rs[p].zones|
  }

  /** No two zones of the pools clash. */
  ghost predicate ClashFree(rs: seq<Resolved>) {
    forall p, z, q, y | Position(rs, p, z) && Position(rs, q, y) && (p != q || z != y) ::
      !Clash(rs[p].pool.name, rs[p].zones[z], rs[q].pool.name, rs[q].zones[y])
  }

  /** Zones clash only where the hashes of their pools differ. */
  ghost predicate HashesTellApart(rs: seq<Resolved>) {
    forall p, z, q, y | Position(rs, p, z) && Position(rs, q, y) && (p != q || z != y) ::
      Clash(rs[p].pool.name, rs[p].zones[z], rs[q].pool.name, rs[q].zones[y]) ==> rs[p].hash != rs[q].hash
  }

  ghost predicate DistinctPools(rs: seq<Resolved>) {
    forall i, j | 0 <= i < j < |rs| :: rs[i].pool.name != rs[j].pool.name
  }

  ghost predicate DistinctZones(r: Resolved) {
    forall i, j | 0 <= i < j < |r.zones| :: r.zones[i] != r.zones[j]
  }

  /** No zone in use ends in a dash followed by a zone in use. */
  ghost predicate DashFree(rs: seq<Resolved>) {
    forall p, z, q, y | Position(rs, p, z) && Position(rs, q, y) :: !EndsInDash(rs[p].zones[z], rs[q].zones[y])
  }

  /** Pool names are distinct, zones are distinct within each pool, and no zone in use is another one's dashed suffix:
      what an operator can check without looking at pool names and zones together. */
  ghost predicate GoodNames(rs: seq<Resolved>) {
    DistinctPools(rs) && DashFree(rs) && forall p | 0 <= p < |rs| :: DistinctZones(rs[p])
  }

  lemma GoodNamesAreClashFree(rs: seq<Resolved>)
    requires GoodNames(rs)
    ensures ClashFree(rs)
  {
    forall p, z, q, y | Position(rs, p, z) && Position(rs, q, y) && (p != q || z != y)
      ensures !Clash(rs[p].pool.name, rs[p].zones[z], rs[q].pool.name, rs[q].zones[y])
    {
      assert DistinctZones(rs[p]);
    }
  }

  ghost predicate OneHashLength(rs: seq<Resolved>) {
    forall p, q | 0 <= p < |rs| && 0 <= q < |rs| :: |rs[p].hash| == |rs[q].hash|
  }

  lemma StripHash(n1: string, h1: string, n2: string, h2: string)
    ensures |h1| == |h2| ==> (ClassName(n1, h1) == ClassName(n2, h2) <==> n1 == n2 && h1 == h2)
  {
    var s := ClassName(n1, h1);
    assert s[..|s| - |h1| - 1] == n1 && s[|s| - |h1|..] == h1;
    if s == ClassName(n2, h2) && |h1| == |h2| {
      assert s[..|s| - |h2| - 1] == n2 && s[|s| - |h2|..] == h2;
    }
  }

  lemma {:induction false} ZonesUpTo(rs: seq<Resolved>, p: nat, q: nat)
    requires p < q <= |rs|
    ensures SumOfZones(rs[..p]) + |rs[p].zones| <= SumOfZones(rs[..q])
  {
    assert rs[..q][..q - 1] == rs[..q - 1];
    if p < q - 1 {
      ZonesUpTo(rs, p, q - 1);
    } else {
      assert rs[..q][q - 1] == rs[p];
    }
  }

  /** Different zones of pools have different entries. */
  lemma EntriesDiffer(rs: seq<Resolved>, p: nat, z: nat, q: nat, y: nat)
    requires Position(rs, p, z) && Position(rs, q, y) && (p != q || z != y)
    ensures SumOfZones(rs[..p]) + z != SumOfZones(rs[..q]) + y
  {
    if p < q {
      ZonesUpTo(rs, p, q);
    } else if q < p {
      ZonesUpTo(rs, q, p);
    }
  }

  ghost predicate DistinctDeployments(ds: seq<Deployment>) {
    forall k, l | 0 <= k < l < |ds| :: ds[k].name != ds[l].name
  }

  ghost predicate DistinctClasses(cs: seq<Class>) {
    forall k, l | 0 <= k < l < |cs| :: cs[k].name != cs[l].name
  }

  lemma EntriesClashIff(c: Common, rs: seq<Resolved>, p: nat, z: nat, q: nat, y: nat)
    requires Position(rs, p, z) && Position(rs, q, y) && (p != q || z != y)
    ensures
      var k, l := SumOfZones(rs[..p]) + z, SumOfZones(rs[..q]) + y;
      var clash := Clash(rs[p].pool.name, rs[p].zones[z], rs[q].pool.name, rs[q].zones[y]);
      && k != l && k < |Deployments(c, rs)| == |Classes(c, rs)| && l < |Deployments(c, rs)|
      && (Deployments(c, rs)[k].name == Deployments(c, rs)[l].name <==> clash)
      && (|rs[p].hash| == |rs[q].hash| ==>
            (Classes(c, rs)[k].name == Classes(c, rs)[l].name <==> clash && rs[p].hash == rs[q].hash))
  {
    EntryOfPoolAndZone(c, rs, p, z);
    EntryOfPoolAndZone(c, rs, q, y);
    EntriesDiffer(rs, p, z, q, y);
    NamesClashIff(c.namespace, rs[p].pool.name, rs[p].zones[z], rs[q].pool.name, rs[q].zones[y]);
    StripHash(DeploymentName(c.namespace, rs[p].pool.name, rs[p].zones[z]), rs[p].hash,
      DeploymentName(c.namespace, rs[q].pool.name, rs[q].zones[y]), rs[q].hash);
  }

  /** The pools and zones of two different entries, and when the entries share their names. */
  lemma PairOfEntries(c: Common, rs: seq<Resolved>, k: nat, l: nat) returns (p: nat, z: nat, q: nat, y: nat)
    requires k < l < SumOfZones(rs)
    ensures Position(rs, p, z) && Position(rs, q, y) && (p != q || z != y)
    ensures
      var clash := Clash(rs[p].pool.name, rs[p].zones[z], rs[q].pool.name, rs[q].zones[y]);
      && l < |Deployments(c, rs)| == |Classes(c, rs)|
      && (Deployments(c, rs)[k].name == Deployments(c, rs)[l].name <==> clash)
      && (|rs[p].hash| == |rs[q].hash| ==>
            (Classes(c, rs)[k].name == Classes(c, rs)[l].name <==> clash && rs[p].hash == rs[q].hash))
  {
    p, z := PoolOfEntry(rs, k);
    q, y := PoolOfEntry(rs, l);
    EntriesClashIff(c, rs, p, z, q, y);
  }

  /** Two entries of one class name, where zones clash and the hashes agree. */
  lemma SharedClassName(c: Common, rs: seq<Resolved>, p: nat, z: nat, q: nat, y: nat)
    requires Position(rs, p, z) && Position(rs, q, y) && (p != q || z != y) && rs[p].hash == rs[q].hash
    requires Clash(rs[p].pool.name, rs[p].zones[z], rs[q].pool.name, rs[q].zones[y])
    ensures !DistinctClasses(Classes(c, rs))
  {
    EntriesClashIff(c, rs, p, z, q, y);
  }

  lemma DeploymentsDistinctIff(c: Common, rs: seq<Resolved>)
    ensures DistinctDeployments(Deployments(c, rs)) <==> ClashFree(rs)
  {
    var ds := Deployments(c, rs);
    ListLengths(c, rs);
    if ClashFree(rs) {
      forall k: nat, l: nat | k < l < |ds| ensures ds[k].name != ds[l].name {
        var p, z, q, y := PairOfEntries(c, rs, k, l);
      }
    } else {
      var p, z, q, y :| Position(rs, p, z) && Position(rs, q, y) && (p != q || z != y)
        && Clash(rs[p].pool.name, rs[p].zones[z], rs[q].pool.name, rs[q].zones[y]);
      EntriesClashIff(c, rs, p, z, q, y);
    }
  }

  lemma ClassesDistinctIff(c: Common, rs: seq<Resolved>)
    requires OneHashLength(rs)
    ensures DistinctClasses(Classes(c, rs)) <==> HashesTellApart(rs)
  {
    var cs := Classes(c, rs);
    ListLengths(c, rs);
    if HashesTellApart(rs) {
      forall k: nat, l: nat | k < l < |cs| ensures cs[k].name != cs[l].name {
        var p, z, q, y := PairOfEntries(c, rs, k, l);
      }
    } else {
      var p, z, q, y :| Position(rs, p, z) && Position(rs, q, y) && (p != q || z != y) && rs[p].hash == rs[q].hash
        && Clash(rs[p].pool.name, rs[p].zones[z], rs[q].pool.name, rs[q].zones[y]);
      SharedClassName(c, rs, p, z, q, y);
    }
  }

  /** All deployment names of a generation differ exactly when no two zones of its pools clash; and all class names,
      when the pool hashes have one common length, exactly when zones clash only where the hashes differ. */
  lemma NamesAreDistinct(c: Common, rs: seq<Resolved>)
    ensures DistinctDeployments(Deployments(c, rs)) <==> ClashFree(rs)
    ensures OneHashLength(rs) ==> (DistinctClasses(Classes(c, rs)) <==> HashesTellApart(rs))
  {
    DeploymentsDistinctIff(c, rs);
    if OneHashLength(rs) {
      ClassesDistinctIff(c, rs);
    }
  }

  /** So the condition an operator can check gives distinct names. */
  lemma GoodNamesAreDistinct(c: Common, rs: seq<Resolved>)
    requires GoodNames(rs)
    ensures DistinctDeployments(Deployments(c, rs))
    ensures OneHashLength(rs) ==> DistinctClasses(Classes(c, rs))
  {
    GoodNamesAreClashFree(rs);
    NamesAreDistinct(c, rs);
  }
}
