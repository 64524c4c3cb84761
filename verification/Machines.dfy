/** pkg/controller/worker/machines.go: pools times zones, expanded into two parallel lists that are cached together. */
module Machines {
  import opened Wrappers
  import opened Fingerprints
  import opened NodeTemplates
  import Api = InfrastructureApi
  import Ensurers

  datatype Region = Region(name: string, zones: seq<string>)

  datatype Pool = Pool(
    name: string,
    zones: seq<string>,
    machineType: string,
    minimum: int,
    maximum: int,
    architecture: Option<string>,
    template: Option<PoolTemplate>,
    /* the placement group type */
    providerConfig: Decoded<string>)

  datatype WorkerSpec = WorkerSpec(
    namespace: string,
    region: string,
    pools: seq<Pool>,
    sshPublicKey: string,
    infraStatus: Decoded<Api.InfraStatus>)

  /** What the generation looks up elsewhere: the credentials, the cloud profile, and library or API results per
      pool. */
  datatype Sources = Sources(
    token: Option<string>,
    regions: seq<Region>,
    machineTypes: seq<MachineType>,
    profileConfigOk: bool,
    hash: Pool -> Option<string>,
    imageName: Pool -> Option<string>,
    userData: Pool -> Option<string>)

  datatype Deployment = Deployment(
    name: string, className: string, secretName: string, poolName: string, minimum: int, maximum: int)

  datatype Class = Class(
    name: string,
    zone: string,
    imageName: string,
    sshFingerprint: string,
    machineType: string,
    networkName: string,
    userData: string,
    token: string,
    placementGroupID: Option<int>,
    floatingPoolName: Option<string>,
    nodeTemplate: NodeTemplate)

  // ---------- zones ----------

  function FirstRegion(regions: seq<Region>, name: string): Option<Region> {
    if regions == [] then None
    else if regions[0].name == name then Some(regions[0])
    else FirstRegion(regions[1..], name)
  }

  /** The zones of a pool: its own, or those the cloud profile declares for the region. Never an empty list. */
  function PoolZones(src: Sources, region: string, pool: Pool): (r: Option<seq<string>>)
    ensures r.Some? ==> r.value != []
  {
    if pool.zones != [] then Some(pool.zones)
    else match FirstRegion(src.regions, region)
      case None => None
      case Some(r) => if r.zones != [] then Some(r.zones) else None
  }

  lemma {:induction false} FirstRegionAt(regions: seq<Region>, name: string, i: nat)
    requires i < |regions| && regions[i].name == name
    requires forall j | 0 <= j < i :: regions[j].name != name
    ensures FirstRegion(regions, name) == Some(regions[i])
  {
    if i == 0 {
    } else {
      FirstRegionAt(regions[1..], name, i - 1);
    }
  }

  lemma {:induction false} NoRegion(regions: seq<Region>, name: string)
    requires forall j | 0 <= j < |regions| :: regions[j].name != name
    ensures FirstRegion(regions, name).None?
  {
    if regions == [] {
    } else {
      NoRegion(regions[1..], name);
    }
  }

  /** Region i of the cloud profile is the first one of that name. */
  ghost predicate IsFirstRegion(regions: seq<Region>, name: string, i: int) {
    0 <= i < |regions| && regions[i].name == name && forall j | 0 <= j < i :: regions[j].name != name
  }

  lemma {:induction false} LeastIndex(regions: seq<Region>, name: string, j: nat) returns (i: nat)
    requires j < |regions| && regions[j].name == name
    ensures IsFirstRegion(regions, name, i)
    decreases j
  {
    if k: nat :| k < j && regions[k].name == name {
      i := LeastIndex(regions, name, k);
    } else {
      i := j;
    }
  }

  /** Which zones a pool gets: its own ones, if it has any; otherwise those of the first region of that name, if there
      is one and it has zones; otherwise none, which is an error. Later regions of the name do not count. */
  lemma PoolZonesExactly(src: Sources, region: string, pool: Pool, zones: seq<string>)
    ensures PoolZones(src, region, pool) == Some(zones) <==>
      && zones != []
      && (if pool.zones != [] then zones == pool.zones
          else exists i :: IsFirstRegion(src.regions, region, i) && src.regions[i].zones == zones)
  {
    forall i | IsFirstRegion(src.regions, region, i) ensures FirstRegion(src.regions, region) == Some(src.regions[i]) {
      FirstRegionAt(src.regions, region, i);
    }
    if j: nat :| j < |src.regions| && src.regions[j].name == region {
      var i := LeastIndex(src.regions, region, j);
    } else {
      NoRegion(src.regions, region);
    }
  }

  // ---------- names ----------

  function DeploymentName(namespace: string, pool: string, zone: string): string {
    namespace + "-" + pool + "-" + zone
  }

  function ClassName(deploymentName: string, hash: string): string {
    deploymentName + "-" + hash
  }

  function GroupName(namespace: string, pool: string): string {
    namespace + "-" + pool
  }

  // ---------- the lists ----------

  /** What the loop over pools resolves once per pool. */
  datatype Resolved = Resolved(
    pool: Pool, zones: seq<string>, hash: string, imageName: string, machineType: MachineType, userData: string)

  function Resolve(src: Sources, region: string, pool: Pool): Option<Resolved> {
    var zones := PoolZones(src, region, pool);
    var t := FindMachineType(src.machineTypes, pool.machineType);
    if zones.None? || src.hash(pool).None? || src.imageName(pool).None? || t.None?
       || !src.profileConfigOk || src.userData(pool).None?
    then None
    else
      Some(Resolved(
        pool, zones.value, src.hash(pool).value, src.imageName(pool).value, t.value, src.userData(pool).value))
  }

  /** All pools in order, or nothing when one of them cannot be resolved. */
  function ResolveAll(src: Sources, region: string, pools: seq<Pool>): (r: Option<seq<Resolved>>)
    ensures r.Some? ==> |r.value| == |pools|
    ensures r.Some? ==> forall i | 0 <= i < |pools| :: Resolve(src, region, pools[i]) == Some(r.value[i])
  {
    if pools == [] then Some([]) else
      var i := |pools| - 1;
      match (ResolveAll(src, region, pools[..i]), Resolve(src, region, pools[i]))
      case (Some(front), Some(last)) => Some(front + [last])
      case _ => None
  }

  /** What is the same for all machines of a worker. */
  datatype Common = Common(
    namespace: string, region: string, token: string, fingerprint: string, floatingPoolName: string,
    groups: map<string, int>)

  function DeploymentOf(c: Common, r: Resolved, zone: string): Deployment {
    var name := DeploymentName(c.namespace, r.pool.name, zone);
    Deployment(name, ClassName(name, r.hash), ClassName(name, r.hash), r.pool.name, r.pool.minimum, r.pool.maximum)
  }

  function ClassOf(c: Common, r: Resolved, zone: string): Class {
    var group := GroupName(c.namespace, r.pool.name);
    Class(
      ClassName(DeploymentName(c.namespace, r.pool.name, zone), r.hash),
      zone, r.imageName, c.fingerprint, r.pool.machineType, c.namespace + "-workers", r.userData, c.token,
      if group in c.groups then Some(c.groups[group]) else None,
      if c.floatingPoolName != "" then Some(c.floatingPoolName) else None,
      PoolNodeTemplate(r.pool.machineType, r.pool.architecture, r.pool.template, Some(r.machineType), c.region, zone))
  }

  function DeploymentsUpTo(c: Common, r: Resolved, n: nat): seq<Deployment>
    requires n <= |r.zones|
  {
    seq(n, i requires 0 <= i < n => DeploymentOf(c, r, r.zones[i]))
  }

  function ClassesUpTo(c: Common, r: Resolved, n: nat): seq<Class>
    requires n <= |r.zones|
  {
    seq(n, i requires 0 <= i < n => ClassOf(c, r, r.zones[i]))
  }

  function Deployments(c: Common, rs: seq<Resolved>): seq<Deployment> {
    if rs == [] then [] else
      var last := rs[|rs| - 1];
      Deployments(c, rs[..|rs| - 1]) + DeploymentsUpTo(c, last, |last.zones|)
  }

  function Classes(c: Common, rs: seq<Resolved>): seq<Class> {
    if rs == [] then [] else
      var last := rs[|rs| - 1];
      Classes(c, rs[..|rs| - 1]) + ClassesUpTo(c, last, |last.zones|)
  }

  function SumOfZones(rs: seq<Resolved>): nat {
    if rs == [] then 0 else SumOfZones(rs[..|rs| - 1]) + |rs[|rs| - 1].zones|
  }

  lemma {:induction false} ListLengths(c: Common, rs: seq<Resolved>)
    ensures |Deployments(c, rs)| == |Classes(c, rs)| == SumOfZones(rs)
  {
    if rs == [] {
    } else {
      ListLengths(c, rs[..|rs| - 1]);
    }
  }

  /** The entries of the last pool come after all the others, which are those of the list without it. */
  lemma LastPoolEntries(c: Common, rs: seq<Resolved>, k: nat)
    requires rs != [] && k < SumOfZones(rs)
    ensures
      var front, last := rs[..|rs| - 1], rs[|rs| - 1];
      var n := SumOfZones(front);
      && |Deployments(c, rs)| == |Classes(c, rs)| == SumOfZones(rs) == n + |last.zones|
      && |Deployments(c, front)| == |Classes(c, front)| == n
      && Deployments(c, rs)[k] == (if k < n then Deployments(c, front)[k] else DeploymentOf(c, last, last.zones[k - n]))
      && Classes(c, rs)[k] == (if k < n then Classes(c, front)[k] else ClassOf(c, last, last.zones[k - n]))
  {
    ListLengths(c, rs[..|rs| - 1]);
    ListLengths(c, rs);
  }

  /** One deployment and one class per pool and zone, in pool-then-zone order: entry SumOfZones(rs[..p]) + z of both
      lists belongs to zone z of pool p, and there are no other entries. */
  lemma {:induction false} EntryOfPoolAndZone(c: Common, rs: seq<Resolved>, p: nat, z: nat)
    requires p < |rs| && z < |rs[p].zones|
    ensures |Deployments(c, rs)| == |Classes(c, rs)| == SumOfZones(rs)
    ensures SumOfZones(rs[..p]) + z < SumOfZones(rs)
    ensures Deployments(c, rs)[SumOfZones(rs[..p]) + z] == DeploymentOf(c, rs[p], rs[p].zones[z])
    ensures Classes(c, rs)[SumOfZones(rs[..p]) + z] == ClassOf(c, rs[p], rs[p].zones[z])
  {
    var n := |rs| - 1;
    if p == n {
      LastPoolEntries(c, rs, SumOfZones(rs[..n]) + z);
    } else {
      EntryOfPoolAndZone(c, rs[..n], p, z);
      assert rs[..n][..p] == rs[..p];
      LastPoolEntries(c, rs, SumOfZones(rs[..p]) + z);
    }
  }

  lemma {:induction false} PoolOfEntry(rs: seq<Resolved>, k: nat) returns (p: nat, z: nat)
    requires k < SumOfZones(rs)
    ensures p < |rs| && z < |rs[p].zones| && k == SumOfZones(rs[..p]) + z
  {
    var n := |rs| - 1;
    if k < SumOfZones(rs[..n]) {
      p, z := PoolOfEntry(rs[..n], k);
      assert rs[..n][..p] == rs[..p];
    } else {
      p, z := n, k - SumOfZones(rs[..n]);
    }
  }

  /** The two lists fit together: same positive length, and every deployment names the class and the secret beside
      it. */
  ghost predicate Aligned(ds: seq<Deployment>, cs: seq<Class>) {
    && |ds| == |cs| > 0
    && forall i | 0 <= i < |ds| :: ds[i].className == ds[i].secretName == cs[i].name
  }

  lemma GeneratedListsAreAligned(c: Common, rs: seq<Resolved>)
    requires rs != [] && forall r | r in rs :: r.zones != []
    ensures Aligned(Deployments(c, rs), Classes(c, rs))
  {
    var ds, cs := Deployments(c, rs), Classes(c, rs);
    EntryOfPoolAndZone(c, rs, 0, 0);
    forall i | 0 <= i < |ds| ensures ds[i].className == ds[i].secretName == cs[i].name {
      var p, z := PoolOfEntry(rs, i);
      EntryOfPoolAndZone(c, rs, p, z);
    }
  }

  lemma {:induction false} ResolvedHaveZones(src: Sources, region: string, pools: seq<Pool>)
    requires ResolveAll(src, region, pools).Some?
    ensures forall r | r in ResolveAll(src, region, pools).value :: r.zones != []
  {
    if pools == [] {
    } else {
      ResolvedHaveZones(src, region, pools[..|pools| - 1]);
    }
  }

  /** One round of the loop over the pools. */
  lemma OneMorePool(
      src: Sources, region: string, pools: seq<Pool>, i: nat, c: Common, rs: seq<Resolved>, r: Resolved)
    requires i < |pools| && ResolveAll(src, region, pools[..i]) == Some(rs)
    requires Resolve(src, region, pools[i]) == Some(r)
    ensures ResolveAll(src, region, pools[..i + 1]) == Some(rs + [r])
    ensures Deployments(c, rs + [r]) == Deployments(c, rs) + DeploymentsUpTo(c, r, |r.zones|)
    ensures Classes(c, rs + [r]) == Classes(c, rs) + ClassesUpTo(c, r, |r.zones|)
  {
    assert pools[..i + 1][..i] == pools[..i];
    assert (rs + [r])[..|rs|] == rs;
  }

  // ---------- the whole generation ----------

  /** The fingerprint the classes use, when it can be determined. */
  function WorkerFingerprint(h: Hashes, spec: WorkerSpec): Option<string> {
    if spec.infraStatus.Undecodable? then None
    else if spec.infraStatus.Decoded? && spec.infraStatus.value.sshFingerprint != ""
    then Some(spec.infraStatus.value.sshFingerprint)
    else Fingerprint(h, spec.sshPublicKey)
  }

  function CommonOf(h: Hashes, spec: WorkerSpec, src: Sources, status: Decoded<map<string, int>>): Option<Common> {
    if src.token.None? || spec.infraStatus.Undecodable? || status.Undecodable?
       || WorkerFingerprint(h, spec).None? || spec.pools == []
    then None
    else Some(Common(spec.namespace, spec.region, src.token.value, WorkerFingerprint(h, spec).value,
      if spec.infraStatus.Decoded? then spec.infraStatus.value.floatingPoolName else "",
      if status.Decoded? then status.value else map[]))
  }

  datatype Generation = Generation(deployments: seq<Deployment>, classes: seq<Class>)

  function Generated(h: Hashes, spec: WorkerSpec, src: Sources, status: Decoded<map<string, int>>): Option<Generation> {
    match (CommonOf(h, spec, src, status), ResolveAll(src, spec.region, spec.pools))
    case (Some(c), Some(rs)) => Some(Generation(Deployments(c, rs), Classes(c, rs)))
    case _ => None
  }

  lemma {:induction false} UnresolvedPool(src: Sources, region: string, pools: seq<Pool>, k: nat)
    requires k < |pools| && Resolve(src, region, pools[k]).None?
    ensures ResolveAll(src, region, pools).None?
  {
    if k == |pools| - 1 {
    } else {
      UnresolvedPool(src, region, pools[..|pools| - 1], k);
    }
  }

  /** The Worker resource; its provider status holds the placement group ids by name, and no machine images. */
  class WorkerResource {
    var providerStatus: Decoded<map<string, int>>

    constructor (status: Decoded<map<string, int>>)
      ensures providerStatus == status
    {
      providerStatus := status;
    }
  }

  /** A missing status decodes to an empty one. */
  function Ids(status: Decoded<map<string, int>>): map<string, int> {
    if status.Decoded? then status.value else map[]
  }

  /** What the chart makes of a class; rest stands for the fields this model does not name. */
  function RenderedClass(c: Class, rest: Class -> string): MachineClass {
    MachineClass(Decoded.Decoded(ProviderSpec(c.machineType, c.zone)), Some(c.nodeTemplate), rest(c))
  }

  /** All of them by name; a later one of the same name wins. */
  function Rendered(classes: seq<Class>, rest: Class -> string): map<string, MachineClass> {
    if classes == [] then map[] else
      var last := classes[|classes| - 1];
      Rendered(classes[..|classes| - 1], rest)[last.name := RenderedClass(last, rest)]
  }

  /** The worker delegate: its inputs, and the two lists it caches. */
  class WorkerDelegate {
    const hashes: Hashes
    const spec: WorkerSpec
    var machineDeployments: Option<seq<Deployment>>
    var machineClasses: Option<seq<Class>>

    /** Both caches are empty, or both come from one generation. */
    ghost predicate Valid()
      reads this
    {
      && (machineDeployments.Some? <==> machineClasses.Some?)
      && (machineDeployments.Some? ==>
            exists src, status ::
              Generated(hashes, spec, src, status) == Some(Generation(machineDeployments.value, machineClasses.value)))
    }

    constructor (h: Hashes, s: WorkerSpec)
      ensures Valid() && machineDeployments.None? && hashes == h && spec == s
    {
      hashes, spec := h, s;
      machineDeployments, machineClasses := None, None;
    }

    /** The inner loop: appends one deployment and one class for every zone of the pool. */
    method GeneratePool(c: Common, r: Resolved, ds0: seq<Deployment>, cs0: seq<Class>)
      returns (ds: seq<Deployment>, cs: seq<Class>)
      ensures ds == ds0 + DeploymentsUpTo(c, r, |r.zones|)
      ensures cs == cs0 + ClassesUpTo(c, r, |r.zones|)
    {
      ds, cs := ds0, cs0;
      for zoneIndex := 0 to |r.zones|
        invariant ds == ds0 + DeploymentsUpTo(c, r, zoneIndex)
        invariant cs == cs0 + ClassesUpTo(c, r, zoneIndex)
      {
        ds := ds + [DeploymentOf(c, r, r.zones[zoneIndex])];
        cs := cs + [ClassOf(c, r, r.zones[zoneIndex])];
      }
    }

    method GenerateMachineConfig(src: Sources, status: Decoded<map<string, int>>) returns (ok: bool)
      requires Valid()
      modifies this
      ensures Valid()
      ensures
        match Generated(hashes, spec, src, status)
        case Some(g) => ok && machineDeployments == Some(g.deployments) && machineClasses == Some(g.classes)
        case None => !ok && machineDeployments == old(machineDeployments) && machineClasses == old(machineClasses)
    {
      var ds: seq<Deployment>, cs: seq<Class> := [], [];
      var common := CommonOf(hashes, spec, src, status);
      if common.None? {
        return false;
      }
      var c := common.value;
      ghost var rs: seq<Resolved> := [];
      for i := 0 to |spec.pools|
        invariant machineDeployments == old(machineDeployments) && machineClasses == old(machineClasses)
        invariant ResolveAll(src, spec.region, spec.pools[..i]) == Some(rs)
        invariant ds == Deployments(c, rs) && cs == Classes(c, rs)
      {
        var r := Resolve(src, spec.region, spec.pools[i]);
        if r.None? {
          UnresolvedPool(src, spec.region, spec.pools, i);
          return false;
        }
        ds, cs := GeneratePool(c, r.value, ds, cs);
        OneMorePool(src, spec.region, spec.pools, i, c, rs, r.value);
        rs := rs + [r.value];
      }
      assert spec.pools[..|spec.pools|] == spec.pools;
      assert Generated(hashes, spec, src, status) == Some(Generation(ds, cs));
      machineDeployments := Some(ds);
      machineClasses := Some(cs);
      return true;
    }

    method GenerateMachineDeployments(
        src: Sources, status: Decoded<map<string, int>>)
      returns (r: Option<seq<Deployment>>)
      requires Valid()
      modifies this
      ensures Valid()
      ensures r == machineDeployments
      ensures old(machineDeployments).Some? ==>
        machineDeployments == old(machineDeployments) && machineClasses == old(machineClasses)
      ensures old(machineDeployments).None? ==>
        match Generated(hashes, spec, src, status)
        case Some(g) => machineDeployments == Some(g.deployments) && machineClasses == Some(g.classes)
        case None => machineDeployments.None? && machineClasses.None?
    {
      if machineDeployments.None? {
        var ok := GenerateMachineConfig(src, status);
        if !ok {
          return None;
        }
      }
      return machineDeployments;
    }

    /** The machine images are never cached, so every status update generates both lists anew; what it writes back is
        the status it read. */
    method UpdateMachineImagesStatus(src: Sources, worker: WorkerResource, patchable: bool) returns (ok: bool)
      requires Valid()
      modifies this, worker
      ensures Valid()
      ensures ok == (Generated(hashes, spec, src, old(worker.providerStatus)).Some? && patchable)
      // a missing status becomes an empty one
      ensures worker.providerStatus ==
        if ok && old(worker.providerStatus).Missing? then Decoded.Decoded(map[]) else old(worker.providerStatus)
      ensures
        match Generated(hashes, spec, src, old(worker.providerStatus))
        case Some(g) => machineDeployments == Some(g.deployments) && machineClasses == Some(g.classes)
        case None => machineDeployments == old(machineDeployments) && machineClasses == old(machineClasses)
    {
      var generated := GenerateMachineConfig(src, worker.providerStatus);
      if !generated {
        return false;
      }
      if worker.providerStatus.Undecodable? {
        return false;
      }
      if !patchable {
        return false;
      }
      worker.providerStatus := Decoded.Decoded(Ids(worker.providerStatus));
      return true;
    }

    /** The names of the cached classes, which a backfill skips. */
    function Wanted(): set<string>
      reads this
    {
      if machineClasses.None? then {} else set c | c in machineClasses.value :: c.name
    }

    /** Renders the wanted classes through the chart, then backfills the templates of all the others. */
    method DeployMachineClasses(
        src: Sources, status: Decoded<map<string, int>>, rest: Class -> string, chartApplies: bool,
        store: MachineClassStore, listable: bool, vanishing: nat -> set<string>, failing: set<string>)
      returns (ok: bool, ghost names: seq<string>)
      requires Valid()
      modifies this, store
      ensures Valid()
      ensures old(machineClasses).Some? ==>
        machineDeployments == old(machineDeployments) && machineClasses == old(machineClasses)
      ensures old(machineClasses).None? ==>
        match Generated(hashes, spec, src, status)
        case Some(g) => machineDeployments == Some(g.deployments) && machineClasses == Some(g.classes)
        case None => machineDeployments.None? && machineClasses.None?
      ensures
        var deployed := machineClasses.Some? && chartApplies;
        var before := old(store.classes) + (if deployed then Rendered(machineClasses.value, rest) else map[]);
        var wanted := if machineClasses.None? then {} else set c | c in machineClasses.value :: c.name;
        var b := Backfill(Profile(src.machineTypes, spec.region), wanted, before, names, vanishing, failing);
        && (deployed && listable ==> IsListing(names, before))
        && (ok <==> deployed && listable && b.Completes())
        && (ok ==>
              && store.classes == Backfilled(b.p, wanted, before - b.Vanished(|names|))
              && store.patches == old(store.patches) + b.Log(|names|))
        && (deployed && listable && !ok ==> exists i ::
              Stopped(b, i, store.classes, old(store.patches), store.patches))
        && (!deployed || !listable ==> store.classes == before && store.patches == old(store.patches))
    {
      names := [];
      if machineClasses.None? {
        var generated := GenerateMachineConfig(src, status);
        if !generated {
          return false, [];
        }
      }
      if !chartApplies {
        return false, [];
      }
      store.Apply(Rendered(machineClasses.value, rest));
      ok, names := BackfillNodeTemplates(
        store, Profile(src.machineTypes, spec.region), Wanted(), listable, vanishing, failing);
    }
  }

  /** Class k is the last one of that name. */
  ghost predicate IsLastClass(classes: seq<Class>, name: string, k: int) {
    0 <= k < |classes| && classes[k].name == name && forall l | k < l < |classes| :: classes[l].name != name
  }

  /** The stored class under a name is made of the last class of that name. */
  ghost predicate RenderedFrom(m: MachineClass, classes: seq<Class>, name: string) {
    exists k | IsLastClass(classes, name, k) ::
      && m.providerSpec.Decoded?
      && m.providerSpec.value.serverType == classes[k].machineType && m.providerSpec.value.zone == classes[k].zone
      && m.nodeTemplate == Some(classes[k].nodeTemplate)
  }

  lemma {:induction false} RenderedNames(classes: seq<Class>, rest: Class -> string)
    ensures Rendered(classes, rest).Keys == set c | c in classes :: c.name
    ensures forall n | n in Rendered(classes, rest) :: RenderedFrom(Rendered(classes, rest)[n], classes, n)
  {
    if classes == [] {
    } else {
      var i := |classes| - 1;
      RenderedNames(classes[..i], rest);
      assert classes == classes[..i] + [classes[i]];
      forall n | n in Rendered(classes, rest) ensures RenderedFrom(Rendered(classes, rest)[n], classes, n) {
        if n == classes[i].name {
          assert IsLastClass(classes, n, i);
        } else {
          var k :| IsLastClass(classes[..i], n, k)
            && Rendered(classes[..i], rest)[n].providerSpec.Decoded?
            && Rendered(classes[..i], rest)[n].providerSpec.value.serverType == classes[..i][k].machineType
            && Rendered(classes[..i], rest)[n].providerSpec.value.zone == classes[..i][k].zone
            && Rendered(classes[..i], rest)[n].nodeTemplate == Some(classes[..i][k].nodeTemplate);
          assert IsLastClass(classes, n, k);
        }
      }
    }
  }

  /** The deployment of a zone of a pool. */
  ghost predicate DeploymentFits(spec: WorkerSpec, src: Sources, pool: Pool, zone: string, d: Deployment) {
    && d.name == spec.namespace + "-" + pool.name + "-" + zone
    && src.hash(pool).Some? && d.className == d.secretName == d.name + "-" + src.hash(pool).value
    && d.poolName == pool.name && d.minimum == pool.minimum && d.maximum == pool.maximum
  }

  /** The capacity of the pool's own template, key by key, and of the machine type where that has none. */
  predicate HasCapacity(n: NodeTemplate, own: Option<PoolTemplate>, t: MachineType) {
    var mine := if own.Some? then own.value.capacity else map[];
    && n.capacity.Keys == {"cpu", "gpu", "memory"} + mine.Keys
    && (forall k | k in mine :: n.capacity[k] == mine[k])
    && ("cpu" !in mine ==> n.capacity["cpu"] == t.cpu)
    && ("gpu" !in mine ==> n.capacity["gpu"] == t.gpu)
    && ("memory" !in mine ==> n.capacity["memory"] == t.memory)
    && n.virtualCapacity ==
       (if own.None? || own.value.virtualCapacity == map[] then None else Some(own.value.virtualCapacity))
  }

  /** The class of a zone of a pool: in the zone, in the network the infrastructure controller ensures for the
      namespace, with the placement group recorded for the pool and a complete node template for the zone. */
  ghost predicate ClassFits(
      h: Hashes, spec: WorkerSpec, src: Sources, status: Decoded<map<string, int>>, pool: Pool, zone: string, c: Class)
  {
    && c.zone == zone && c.machineType == pool.machineType
    && c.networkName == Ensurers.WorkersName(spec.namespace)
    && (if spec.infraStatus.Decoded? && spec.infraStatus.value.sshFingerprint != ""
        then c.sshFingerprint == spec.infraStatus.value.sshFingerprint
        else Fingerprint(h, spec.sshPublicKey) == Some(c.sshFingerprint))
    && Some(c.token) == src.token
    && Some(c.imageName) == src.imageName(pool) && Some(c.userData) == src.userData(pool)
    && c.nodeTemplate.zone == zone && c.nodeTemplate.region == spec.region
    && c.nodeTemplate.instanceType == pool.machineType && Complete(c.nodeTemplate)
    && (c.floatingPoolName.Some? <==> spec.infraStatus.Decoded? && spec.infraStatus.value.floatingPoolName != "")
    && (c.floatingPoolName.Some? ==> c.floatingPoolName.value == spec.infraStatus.value.floatingPoolName)
    && (forall t | IsFirstType(src.machineTypes, pool.machineType, t) ::
          HasCapacity(c.nodeTemplate, pool.template, src.machineTypes[t]))
    && c.nodeTemplate.architecture == (if pool.architecture.None? then "amd64" else pool.architecture.value)
    && c.placementGroupID ==
       (if status.Decoded? && spec.namespace + "-" + pool.name in status.value
        then Some(status.value[spec.namespace + "-" + pool.name]) else None)
  }

  lemma DeploymentOfFits(src: Sources, spec: WorkerSpec, c: Common, r: Resolved, pool: Pool, zone: string)
    requires Resolve(src, spec.region, pool) == Some(r) && c.namespace == spec.namespace
    ensures DeploymentFits(spec, src, pool, zone, DeploymentOf(c, r, zone))
    ensures ClassOf(c, r, zone).name == DeploymentOf(c, r, zone).className
  {
  }

  lemma ClassOfFits(
      h: Hashes, spec: WorkerSpec, src: Sources, status: Decoded<map<string, int>>,
      r: Resolved, pool: Pool, zone: string)
    requires CommonOf(h, spec, src, status).Some? && Resolve(src, spec.region, pool) == Some(r)
    ensures ClassFits(h, spec, src, status, pool, zone, ClassOf(CommonOf(h, spec, src, status).value, r, zone))
  {
    PoolTemplateExactly(pool.machineType, pool.architecture, pool.template, r.machineType, spec.region, zone);
    forall t: nat | IsFirstType(src.machineTypes, pool.machineType, t) ensures src.machineTypes[t] == r.machineType {
      FirstMachineType(src.machineTypes, pool.machineType, t);
    }
  }

  /** What a pool needs so that its machines can be generated. */
  ghost predicate Resolvable(src: Sources, region: string, p: Pool) {
    && (p.zones != [] || exists i :: IsFirstRegion(src.regions, region, i) && src.regions[i].zones != [])
    && src.hash(p).Some? && src.imageName(p).Some? && src.userData(p).Some?
    && (exists t | t in src.machineTypes :: t.name == p.machineType) && src.profileConfigOk
  }

  lemma ResolvesIff(src: Sources, region: string, p: Pool)
    ensures Resolve(src, region, p).Some? <==> Resolvable(src, region, p)
  {
    var zones := PoolZones(src, region, p);
    if zones.Some? {
      PoolZonesExactly(src, region, p, zones.value);
    }
    if i :| p.zones == [] && IsFirstRegion(src.regions, region, i) && src.regions[i].zones != [] {
      PoolZonesExactly(src, region, p, src.regions[i].zones);
    }
    if p.zones != [] {
      PoolZonesExactly(src, region, p, p.zones);
    }
  }

  lemma {:induction false} AllResolveIff(src: Sources, region: string, pools: seq<Pool>)
    ensures ResolveAll(src, region, pools).Some? <==> forall p | p in pools :: Resolve(src, region, p).Some?
  {
    if pools == [] {
    } else {
      var n := |pools| - 1;
      AllResolveIff(src, region, pools[..n]);
      assert pools == pools[..n] + [pools[n]];
    }
  }

  /** Machines can be generated exactly if there are credentials, the statuses can be decoded, a fingerprint is
      recorded or can be computed, and there are pools, each of which can be resolved. */
  lemma GeneratedIff(h: Hashes, spec: WorkerSpec, src: Sources, status: Decoded<map<string, int>>)
    ensures
      Generated(h, spec, src, status).Some? <==>
        && src.token.Some? && !spec.infraStatus.Undecodable? && !status.Undecodable? && spec.pools != []
        && ((spec.infraStatus.Decoded? && spec.infraStatus.value.sshFingerprint != "")
            || Fingerprint(h, spec.sshPublicKey).Some?)
        && forall p | p in spec.pools :: Resolvable(src, spec.region, p)
  {
    AllResolveIff(src, spec.region, spec.pools);
    forall p | p in spec.pools ensures Resolve(src, spec.region, p).Some? <==> Resolvable(src, spec.region, p) {
      ResolvesIff(src, spec.region, p);
    }
  }

  /** Entry k of both lists, for zone z of pool p: the deployment and the class beside it fit the zone and the pool. */
  lemma GeneratedEntry(h: Hashes, spec: WorkerSpec, src: Sources, status: Decoded<map<string, int>>, p: nat, z: nat)
    requires Generated(h, spec, src, status).Some?
    requires p < |spec.pools| && PoolZones(src, spec.region, spec.pools[p]).Some?
    requires z < |PoolZones(src, spec.region, spec.pools[p]).value|
    ensures
      var pool := spec.pools[p];
      var zone := PoolZones(src, spec.region, pool).value[z];
      var g := Generated(h, spec, src, status).value;
      var k := SumOfZones(ResolveAll(src, spec.region, spec.pools).value[..p]) + z;
      && k < |g.deployments| == |g.classes|
      && DeploymentFits(spec, src, pool, zone, g.deployments[k])
      && ClassFits(h, spec, src, status, pool, zone, g.classes[k])
      && g.classes[k].name == g.deployments[k].className
  {
    var rs := ResolveAll(src, spec.region, spec.pools).value;
    var c := CommonOf(h, spec, src, status).value;
    var pool := spec.pools[p];
    assert Resolve(src, spec.region, pool) == Some(rs[p]);
    EntryOfPoolAndZone(c, rs, p, z);
    DeploymentOfFits(src, spec, c, rs[p], pool, rs[p].zones[z]);
    ClassOfFits(h, spec, src, status, rs[p], pool, rs[p].zones[z]);
  }

  /** The two lists of a generation fit together. */
  lemma CachedListsAreAligned(h: Hashes, spec: WorkerSpec, src: Sources, status: Decoded<map<string, int>>)
    requires Generated(h, spec, src, status).Some?
    ensures
      var g := Generated(h, spec, src, status).value;
      && Aligned(g.deployments, g.classes)
      && |g.deployments| == SumOfZones(ResolveAll(src, spec.region, spec.pools).value)
  {
    var rs := ResolveAll(src, spec.region, spec.pools).value;
    ResolvedHaveZones(src, spec.region, spec.pools);
    GeneratedListsAreAligned(CommonOf(h, spec, src, status).value, rs);
    ListLengths(CommonOf(h, spec, src, status).value, rs);
  }

  /** So whatever a valid delegate has cached fits together, whenever and from whatever it was generated. */
  lemma ValidDelegateIsAligned(d: WorkerDelegate)
    requires d.Valid() && d.machineDeployments.Some?
    ensures d.machineClasses.Some? && Aligned(d.machineDeployments.value, d.machineClasses.value)
  {
    var src, status :|
      Generated(d.hashes, d.spec, src, status) == Some(Generation(d.machineDeployments.value, d.machineClasses.value));
    CachedListsAreAligned(d.hashes, d.spec, src, status);
  }

  lemma GeneratedTemplatesAreComplete(c: Common, rs: seq<Resolved>, x: Class)
    requires x in Classes(c, rs)
    ensures Complete(x.nodeTemplate)
  {
    var k :| 0 <= k < |Classes(c, rs)| && Classes(c, rs)[k] == x;
    ListLengths(c, rs);
    var p, z := PoolOfEntry(rs, k);
    EntryOfPoolAndZone(c, rs, p, z);
    var r := rs[p];
    PoolTemplateExactly(
      r.pool.machineType, r.pool.architecture, r.pool.template, r.machineType, c.region, r.zones[z]);
  }

  /** The stored classes after a successful deployment: every wanted one that is still there is as the chart renders it,
      with a complete template; every other one either has a template or none could be derived for it. */
  lemma DeployedClassesHaveTemplates(
      h: Hashes, spec: WorkerSpec, src: Sources, status: Decoded<map<string, int>>, rest: Class -> string,
      stored: map<string, MachineClass>, gone: set<string>)
    requires Generated(h, spec, src, status).Some?
    ensures
      var classes := Generated(h, spec, src, status).value.classes;
      var wanted := set c | c in classes :: c.name;
      var profile := Profile(src.machineTypes, spec.region);
      var after := Backfilled(profile, wanted, stored + Rendered(classes, rest) - gone);
      && after.Keys == stored.Keys + wanted - gone
      && forall n | n in after ::
           if n in wanted
           then RenderedFrom(after[n], classes, n)
                && after[n].nodeTemplate.Some? && Complete(after[n].nodeTemplate.value)
           else after[n].nodeTemplate.Some? || Derived(profile, stored[n]).None?
  {
    var classes := Generated(h, spec, src, status).value.classes;
    var rs := ResolveAll(src, spec.region, spec.pools).value;
    var c := CommonOf(h, spec, src, status).value;
    RenderedNames(classes, rest);
    forall x | x in classes ensures Complete(x.nodeTemplate) {
      GeneratedTemplatesAreComplete(c, rs, x);
    }
  }
}
