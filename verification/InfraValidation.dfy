/** pkg/hcloud/apis/validation/infrastructure.go: what the admission webhook checks of an InfrastructureConfig. */
module InfraValidation {
  import opened Wrappers
  import opened Cidr
  import opened InfrastructureApi

  datatype FieldError =
    | Required(field: string)
    | NotSupported(field: string)
    | NotParsable(field: string)
    | NotCanonical(field: string)
    | WrongFamily(field: string)
    | NotPrivate(field: string)
    | NotSubset(field: string)
    | Overlaps(field: string, other: string)
    | Immutable(field: string)
    | ZoneMismatch(field: string)

  const CONFIG_PATH: string := "infrastructureConfig"
  const NETWORKS_PATH: string := "infrastructureConfig.networks"
  const ZONE_PATH: string := "infrastructureConfig.networks.workersConfiguration.zone"

  function NetworkZones(): set<string> {
    {"eu-central", "us-east", "us-west", "ap-southeast"}
  }

  /** The network zone hosting a region; regions missing here are not validated. */
  function RegionNetworkZone(region: string): Option<string> {
    if region in {"fsn1", "nbg1", "hel1"} then Some("eu-central")
    else if region == "ash" then Some("us-east")
    else if region == "hil" then Some("us-west")
    else if region == "sin" then Some("ap-southeast")
    else None
  }

  /** Which network zone hosts which region: every zone that may be configured hosts one, no other zone does, and a
      region is validated exactly if it is one of these six. */
  lemma RegionTable(region: string)
    ensures RegionNetworkZone(region) == Some("eu-central") <==> region in {"fsn1", "nbg1", "hel1"}
    ensures RegionNetworkZone(region) == Some("us-east") <==> region == "ash"
    ensures RegionNetworkZone(region) == Some("us-west") <==> region == "hil"
    ensures RegionNetworkZone(region) == Some("ap-southeast") <==> region == "sin"
    ensures RegionNetworkZone(region).Some? ==> RegionNetworkZone(region).value in NetworkZones()
  {
  }

  predicate IsSet(s: Option<string>) {
    s.Some? && s.value != ""
  }

  function WorkersCidr(n: Networks): string {
    if n.workersConfiguration.Some? then n.workersConfiguration.value.cidr else n.workers
  }

  function WorkersPath(n: Networks): string {
    if n.workersConfiguration.Some? then NETWORKS_PATH + ".workersConfiguration.cidr" else NETWORKS_PATH + ".workers"
  }

  /** The CIDR of a shoot network, if it is set and can be parsed. */
  function ShootNet(lib: Library, cidr: Option<string>): Option<Net> {
    if IsSet(cidr) then lib.parseCidr(cidr.value) else None
  }

  // ---------- what acceptance means, over sets of addresses ----------

  ghost predicate GoodWorkerNet(w: Net) {
    && w.family == IPv4
    && (forall x :: Contains(w, x) ==> w.address <= x.value)
    && BaseIsPrivate(w)
  }

  ghost predicate ZoneKnown(n: Networks) {
    n.workersConfiguration.Some? && n.workersConfiguration.value.zone != "" ==>
      n.workersConfiguration.value.zone in NetworkZones()
  }

  /** The worker network of an acceptable configuration: written with its first address, which is private and
      IPv4; inside the nodes network and disjoint from pods and services, as far as these are set and parse. */
  ghost predicate Acceptable(
      lib: Library, config: Option<InfraConfig>, nodes: Option<string>, pods: Option<string>, services: Option<string>)
  {
    && config.Some? && config.value.networks.Some?
    && ZoneKnown(config.value.networks.value)
    && var text := WorkersCidr(config.value.networks.value);
    && text != "" && lib.parseCidr(text).Some?
    && var worker := lib.parseCidr(text).value;
    && GoodWorkerNet(worker)
    && (ShootNet(lib, nodes).Some? ==> Subset(ShootNet(lib, nodes).value, worker))
    && (ShootNet(lib, pods).Some? ==> Disjoint(worker, ShootNet(lib, pods).value))
    && (ShootNet(lib, services).Some? ==> Disjoint(worker, ShootNet(lib, services).value))
  }

  // ---------- the error lists ----------

  function ZoneErrors(n: Networks): seq<FieldError> {
    if n.workersConfiguration.Some? && n.workersConfiguration.value.zone != ""
       && n.workersConfiguration.value.zone !in NetworkZones()
    then [NotSupported(ZONE_PATH)] else []
  }

  function BlockErrors(w: Net, path: string): seq<FieldError> {
    (if Canonical(w) then [] else [NotCanonical(path)])
    + (if w.family == IPv4 then [] else [WrongFamily(path)])
    + (if BaseIsPrivate(w) then [] else [NotPrivate(path)])
  }

  function NodesErrors(w: Net, nodes: Option<Net>, path: string): seq<FieldError> {
    if nodes.Some? && !SubsetCheck(nodes.value, w) then [NotSubset(path)] else []
  }

  function OverlapErrors(w: Net, other: Option<Net>, path: string, name: string): seq<FieldError> {
    if other.Some? && OverlapCheck(w, other.value) then [Overlaps(path, name)] else []
  }

  /** The errors of a worker network that parses; the two shoot networks are visited in either order. */
  function WorkerNetErrors(
      lib: Library, w: Net, path: string, nodes: Option<string>, pods: Option<string>, services: Option<string>,
      podsFirst: bool): seq<FieldError>
  {
    var podErrors := OverlapErrors(w, ShootNet(lib, pods), path, "pods");
    var serviceErrors := OverlapErrors(w, ShootNet(lib, services), path, "services");
    BlockErrors(w, path) + NodesErrors(w, ShootNet(lib, nodes), path)
    + (if podsFirst then podErrors + serviceErrors else serviceErrors + podErrors)
  }

  /** The errors of the worker network: none is set, it does not parse, or those of the block. */
  function NetworkErrors(
      lib: Library, n: Networks, nodes: Option<string>, pods: Option<string>, services: Option<string>,
      podsFirst: bool): seq<FieldError>
  {
    var path := WorkersPath(n);
    if WorkersCidr(n) == "" then [Required(path)]
    else match lib.parseCidr(WorkersCidr(n))
      case None => [NotParsable(path)]
      case Some(w) => WorkerNetErrors(lib, w, path, nodes, pods, services, podsFirst)
  }

  function Errors(
      lib: Library, config: Option<InfraConfig>, nodes: Option<string>, pods: Option<string>, services: Option<string>,
      podsFirst: bool): seq<FieldError>
  {
    if config.None? then [Required(CONFIG_PATH)]
    else if config.value.networks.None? then [Required(NETWORKS_PATH)]
    else
      var n := config.value.networks.value;
      ZoneErrors(n) + NetworkErrors(lib, n, nodes, pods, services, podsFirst)
  }

  lemma CanonicalMeaning(w: Net)
    ensures Canonical(w) <==> forall x :: Contains(w, x) ==> w.address <= x.value
  {
    FirstOfFirst(w);
    var first := Address(w.family, First(w));
    ContainsIffBetween(w, first);
    forall x | Contains(w, x) ensures First(w) <= x.value {
      ContainsIffBetween(w, x);
    }
  }

  /** The same for a worker network that parses. */
  lemma NoNetErrorsIff(
      lib: Library, w: Net, path: string, nodes: Option<string>, pods: Option<string>, services: Option<string>,
      podsFirst: bool)
    ensures
      WorkerNetErrors(lib, w, path, nodes, pods, services, podsFirst) == [] <==>
        && GoodWorkerNet(w)
        && (ShootNet(lib, nodes).Some? ==> Subset(ShootNet(lib, nodes).value, w))
        && (ShootNet(lib, pods).Some? ==> Disjoint(w, ShootNet(lib, pods).value))
        && (ShootNet(lib, services).Some? ==> Disjoint(w, ShootNet(lib, services).value))
  {
    CanonicalMeaning(w);
    var n, p, s := ShootNet(lib, nodes), ShootNet(lib, pods), ShootNet(lib, services);
    if n.Some? { SubsetMeaning(n.value, w); }
    if p.Some? { OverlapMeaning(w, p.value); }
    if s.Some? { OverlapMeaning(w, s.value); }
    assert BlockErrors(w, path) == [] <==> GoodWorkerNet(w);
    assert NodesErrors(w, n, path) == [] <==> (n.Some? ==> Subset(n.value, w));
  }

  /** The list is empty exactly for an acceptable configuration, in whichever order pods and services come. */
  lemma NoErrorsIffAcceptable(
      lib: Library, config: Option<InfraConfig>, nodes: Option<string>, pods: Option<string>, services: Option<string>,
      podsFirst: bool)
    ensures
      Errors(lib, config, nodes, pods, services, podsFirst) == [] <==>
      Acceptable(lib, config, nodes, pods, services)
  {
    if config.Some? && config.value.networks.Some? {
      var n := config.value.networks.value;
      var parsed := lib.parseCidr(WorkersCidr(n));
      if parsed.Some? {
        NoNetErrorsIff(lib, parsed.value, WorkersPath(n), nodes, pods, services, podsFirst);
      }
    }
  }

  /** The error is deserved by a worker network that parses, in terms of the addresses of the blocks. */
  ghost predicate NetDeserves(
      lib: Library, w: Net, path: string, nodes: Option<string>, pods: Option<string>, services: Option<string>,
      e: FieldError)
  {
    match e
    case NotCanonical(f) => f == path && exists x :: Contains(w, x) && x.value < w.address
    case WrongFamily(f) => f == path && w.family != IPv4
    case NotPrivate(f) => f == path && !AllPrivate(w) && !TooWide(w)
    case NotSubset(f) => f == path && ShootNet(lib, nodes).Some? && !Subset(ShootNet(lib, nodes).value, w)
    case Overlaps(f, other) =>
      && f == path
      && ((other == "pods" && ShootNet(lib, pods).Some? && !Disjoint(w, ShootNet(lib, pods).value))
          || (other == "services" && ShootNet(lib, services).Some? && !Disjoint(w, ShootNet(lib, services).value)))
    case _ => false
  }

  /** The error is deserved by a networks section. */
  ghost predicate SectionDeserves(
      lib: Library, n: Networks, nodes: Option<string>, pods: Option<string>, services: Option<string>, e: FieldError)
  {
    var cidr := if n.workersConfiguration.Some? then n.workersConfiguration.value.cidr else n.workers;
    var path := WorkersPath(n);
    match e
    case Required(f) => f == path && cidr == ""
    case NotParsable(f) => f == path && cidr != "" && lib.parseCidr(cidr).None?
    case NotSupported(f) =>
      && f == ZONE_PATH && n.workersConfiguration.Some?
      && n.workersConfiguration.value.zone !in {"", "eu-central", "us-east", "us-west", "ap-southeast"}
    case _ =>
      && cidr != "" && lib.parseCidr(cidr).Some?
      && NetDeserves(lib, lib.parseCidr(cidr).value, path, nodes, pods, services, e)
  }

  /** The error is deserved by the configuration. */
  ghost predicate Deserves(
      lib: Library, config: Option<InfraConfig>, nodes: Option<string>, pods: Option<string>, services: Option<string>,
      e: FieldError)
  {
    if config.None? then e == Required(CONFIG_PATH)
    else if config.value.networks.None? then e == Required(NETWORKS_PATH)
    else SectionDeserves(lib, config.value.networks.value, nodes, pods, services, e)
  }

  lemma BlockErrorsExactly(w: Net, path: string, e: FieldError)
    ensures
      e in BlockErrors(w, path) <==>
        || (e == NotCanonical(path) && exists x :: Contains(w, x) && x.value < w.address)
        || (e == WrongFamily(path) && w.family != IPv4)
        || (e == NotPrivate(path) && !AllPrivate(w) && !TooWide(w))
  {
    CanonicalMeaning(w);
    PassesIff(w);
  }

  lemma OverlapErrorsExactly(w: Net, other: Option<Net>, path: string, name: string, e: FieldError)
    ensures
      e in OverlapErrors(w, other, path, name) <==>
        e == Overlaps(path, name) && other.Some? && !Disjoint(w, other.value)
  {
    if other.Some? {
      OverlapMeaning(w, other.value);
    }
  }

  lemma NodesErrorsExactly(w: Net, nodes: Option<Net>, path: string, e: FieldError)
    ensures e in NodesErrors(w, nodes, path) <==> e == NotSubset(path) && nodes.Some? && !Subset(nodes.value, w)
  {
    if nodes.Some? {
      SubsetMeaning(nodes.value, w);
    }
  }

  lemma NetErrorsParts(
      lib: Library, w: Net, path: string, nodes: Option<string>, pods: Option<string>, services: Option<string>,
      podsFirst: bool, e: FieldError)
    ensures
      e in WorkerNetErrors(lib, w, path, nodes, pods, services, podsFirst) <==>
        || e in BlockErrors(w, path) || e in NodesErrors(w, ShootNet(lib, nodes), path)
        || e in OverlapErrors(w, ShootNet(lib, pods), path, "pods")
        || e in OverlapErrors(w, ShootNet(lib, services), path, "services")
  {
  }

  lemma NetErrorsExactly(
      lib: Library, w: Net, path: string, nodes: Option<string>, pods: Option<string>, services: Option<string>,
      podsFirst: bool, e: FieldError)
    ensures
      e in WorkerNetErrors(lib, w, path, nodes, pods, services, podsFirst) <==>
      NetDeserves(lib, w, path, nodes, pods, services, e)
  {
    NetErrorsParts(lib, w, path, nodes, pods, services, podsFirst, e);
    BlockErrorsExactly(w, path, e);
    NodesErrorsExactly(w, ShootNet(lib, nodes), path, e);
    OverlapErrorsExactly(w, ShootNet(lib, pods), path, "pods", e);
    OverlapErrorsExactly(w, ShootNet(lib, services), path, "services", e);
  }

  lemma ZoneErrorsExactly(n: Networks, e: FieldError)
    ensures
      e in ZoneErrors(n) <==>
        && e == NotSupported(ZONE_PATH) && n.workersConfiguration.Some?
        && n.workersConfiguration.value.zone !in {"", "eu-central", "us-east", "us-west", "ap-southeast"}
  {
  }

  lemma NetworkErrorsExactly(
      lib: Library, n: Networks, nodes: Option<string>, pods: Option<string>, services: Option<string>,
      podsFirst: bool, e: FieldError)
    ensures
      e in NetworkErrors(lib, n, nodes, pods, services, podsFirst) <==>
        !e.NotSupported? && SectionDeserves(lib, n, nodes, pods, services, e)
  {
    var parsed := lib.parseCidr(WorkersCidr(n));
    if parsed.Some? {
      NetErrorsExactly(lib, parsed.value, WorkersPath(n), nodes, pods, services, podsFirst, e);
    }
  }

  /** The paths as the errors show them. */
  lemma PathsAre(n: Networks)
    ensures CONFIG_PATH == "infrastructureConfig" && NETWORKS_PATH == "infrastructureConfig.networks"
    ensures ZONE_PATH == "infrastructureConfig.networks.workersConfiguration.zone"
    ensures n.workersConfiguration.Some? ==>
      WorkersPath(n) == "infrastructureConfig.networks.workersConfiguration.cidr"
    ensures n.workersConfiguration.None? ==> WorkersPath(n) == "infrastructureConfig.networks.workers"
  {
  }

  /** Each error is in the list exactly if the configuration deserves it. */
  lemma ErrorsExactly(
      lib: Library, config: Option<InfraConfig>, nodes: Option<string>, pods: Option<string>, services: Option<string>,
      podsFirst: bool, e: FieldError)
    ensures
      e in Errors(lib, config, nodes, pods, services, podsFirst) <==>
      Deserves(lib, config, nodes, pods, services, e)
  {
    if config.Some? && config.value.networks.Some? {
      ZoneErrorsExactly(config.value.networks.value, e);
      NetworkErrorsExactly(lib, config.value.networks.value, nodes, pods, services, podsFirst, e);
    }
  }

  /** An empty CIDR of a shoot network counts as absent. */
  lemma EmptyIsAbsent(
      lib: Library, config: Option<InfraConfig>, nodes: Option<string>, pods: Option<string>, services: Option<string>,
      podsFirst: bool)
    ensures
      var set' := (cidr: Option<string>) => if cidr == Some("") then None else cidr;
      Errors(lib, config, nodes, pods, services, podsFirst)
      == Errors(lib, config, set'(nodes), set'(pods), set'(services), podsFirst)
  {
  }

  /** So the order never decides whether there are errors. */
  lemma EmptyInEitherOrder(
      lib: Library, config: Option<InfraConfig>, nodes: Option<string>, pods: Option<string>, services: Option<string>)
    ensures Errors(lib, config, nodes, pods, services, true) == [] <==>
      Errors(lib, config, nodes, pods, services, false) == []
  {
    NoErrorsIffAcceptable(lib, config, nodes, pods, services, true);
    NoErrorsIffAcceptable(lib, config, nodes, pods, services, false);
  }

  lemma NetErrorsPermute(
      lib: Library, w: Net, path: string, nodes: Option<string>, pods: Option<string>, services: Option<string>)
    ensures
      multiset(WorkerNetErrors(lib, w, path, nodes, pods, services, true))
      == multiset(WorkerNetErrors(lib, w, path, nodes, pods, services, false))
  {
  }

  lemma NetworkErrorsPermute(
      lib: Library, n: Networks, nodes: Option<string>, pods: Option<string>, services: Option<string>)
    ensures
      multiset(NetworkErrors(lib, n, nodes, pods, services, true))
      == multiset(NetworkErrors(lib, n, nodes, pods, services, false))
  {
    var parsed := lib.parseCidr(WorkersCidr(n));
    if parsed.Some? {
      NetErrorsPermute(lib, parsed.value, WorkersPath(n), nodes, pods, services);
    }
  }

  lemma PermuteBehind(front: seq<FieldError>, a: seq<FieldError>, b: seq<FieldError>)
    requires multiset(a) == multiset(b)
    ensures multiset(front + a) == multiset(front + b)
  {
  }

  /** The order only permutes the list. */
  lemma OrderOnlyPermutes(
      lib: Library, config: Option<InfraConfig>, nodes: Option<string>, pods: Option<string>, services: Option<string>)
    ensures
      multiset(Errors(lib, config, nodes, pods, services, true))
      == multiset(Errors(lib, config, nodes, pods, services, false))
  {
    if config.Some? && config.value.networks.Some? {
      var n := config.value.networks.value;
      NetworkErrorsPermute(lib, n, nodes, pods, services);
      PermuteBehind(ZoneErrors(n), NetworkErrors(lib, n, nodes, pods, services, true),
        NetworkErrors(lib, n, nodes, pods, services, false));
    }
  }

  // ---------- the validator ----------

  method ValidatePrivateIPv4Range(worker: Net, path: string) returns (errs: seq<FieldError>)
    ensures errs == if BaseIsPrivate(worker) then [] else [NotPrivate(path)]
  {
    errs := [];
    var ranges := PrivateRanges();
    for i := 0 to |ranges|
      invariant forall j | 0 <= j < i :: !Contains(ranges[j], Address(worker.family, First(worker)))
    {
      if Contains(ranges[i], Address(worker.family, First(worker))) {
        return;
      }
    }
    errs := errs + [NotPrivate(path)];
  }

  /** The loop over the pods and services map, which Go visits in an arbitrary order. */
  method ValidateShootNetworks(lib: Library, worker: Net, path: string, pods: Option<string>, services: Option<string>)
    returns (errs: seq<FieldError>)
    ensures
      var podErrors := OverlapErrors(worker, ShootNet(lib, pods), path, "pods");
      var serviceErrors := OverlapErrors(worker, ShootNet(lib, services), path, "services");
      errs == podErrors + serviceErrors || errs == serviceErrors + podErrors
  {
    errs := [];
    var shootNetworks := map["pods" := pods, "services" := services];
    var todo := {"pods", "services"};
    ghost var podErrors := OverlapErrors(worker, ShootNet(lib, pods), path, "pods");
    ghost var serviceErrors := OverlapErrors(worker, ShootNet(lib, services), path, "services");
    while todo != {}
      invariant todo <= {"pods", "services"}
      invariant "pods" in todo && "services" in todo ==> errs == []
      invariant "pods" !in todo && "services" in todo ==> errs == podErrors
      invariant "pods" in todo && "services" !in todo ==> errs == serviceErrors
      invariant "pods" !in todo && "services" !in todo ==>
        errs == podErrors + serviceErrors || errs == serviceErrors + podErrors
      decreases todo
    {
      var name: string :| name in todo;
      todo := todo - {name};
      var cidr := shootNetworks[name];
      if IsSet(cidr) {
        var other := lib.parseCidr(cidr.value);
        if other.Some? && OverlapCheck(worker, other.value) {
          errs := errs + [Overlaps(path, name)];
        }
      }
    }
  }

  method ValidateWorkerNet(
      lib: Library, worker: Net, path: string, nodes: Option<string>, pods: Option<string>, services: Option<string>)
    returns (errs: seq<FieldError>)
    ensures
      || errs == WorkerNetErrors(lib, worker, path, nodes, pods, services, true)
      || errs == WorkerNetErrors(lib, worker, path, nodes, pods, services, false)
  {
    errs := [];
    if !Canonical(worker) {
      errs := errs + [NotCanonical(path)];
    }
    if worker.family != IPv4 {
      errs := errs + [WrongFamily(path)];
    }
    var privateErrs := ValidatePrivateIPv4Range(worker, path);
    errs := errs + privateErrs;
    assert errs == BlockErrors(worker, path);
    if IsSet(nodes) {
      var nodesNet := lib.parseCidr(nodes.value);
      if nodesNet.Some? && !SubsetCheck(nodesNet.value, worker) {
        errs := errs + [NotSubset(path)];
      }
    }
    assert errs == BlockErrors(worker, path) + NodesErrors(worker, ShootNet(lib, nodes), path);
    var overlapErrs := ValidateShootNetworks(lib, worker, path, pods, services);
    errs := errs + overlapErrs;
  }

  /** The zone of an explicit section, and the CIDR and path that count. */
  method ValidateZone(networks: Networks) returns (errs: seq<FieldError>, workersCidr: string, workersPath: string)
    ensures errs == ZoneErrors(networks)
    ensures workersCidr == WorkersCidr(networks) && workersPath == WorkersPath(networks)
  {
    errs := [];
    workersCidr := networks.workers;
    workersPath := NETWORKS_PATH + ".workers";
    if networks.workersConfiguration.Some? {
      workersCidr := networks.workersConfiguration.value.cidr;
      workersPath := NETWORKS_PATH + ".workersConfiguration.cidr";
      var zone := networks.workersConfiguration.value.zone;
      if zone != "" && zone !in NetworkZones() {
        errs := errs + [NotSupported(ZONE_PATH)];
      }
    }
  }

  method ValidateInfrastructureConfig(
      lib: Library, config: Option<InfraConfig>, nodes: Option<string>, pods: Option<string>, services: Option<string>)
    returns (errs: seq<FieldError>)
    ensures
      || errs == Errors(lib, config, nodes, pods, services, true)
      || errs == Errors(lib, config, nodes, pods, services, false)
  {
    if config.None? {
      return [Required(CONFIG_PATH)];
    }
    if config.value.networks.None? {
      return [Required(NETWORKS_PATH)];
    }
    var networks := config.value.networks.value;
    var workersCidr, workersPath;
    errs, workersCidr, workersPath := ValidateZone(networks);
    if workersCidr == "" {
      errs := errs + [Required(workersPath)];
      return;
    }
    var parsed := lib.parseCidr(workersCidr);
    if parsed.None? {
      errs := errs + [NotParsable(workersPath)];
      return;
    }
    var workerErrs := ValidateWorkerNet(lib, parsed.value, workersPath, nodes, pods, services);
    errs := errs + workerErrs;
  }

  // ---------- updates and the cloud profile ----------

  function UpdateErrors(old': InfraConfig, new': InfraConfig): seq<FieldError> {
    if new'.networks == old'.networks then [] else [Immutable("networks")]
  }

  function NetworkZoneOf(config: Option<InfraConfig>): string {
    if config.None? || config.value.networks.None? || config.value.networks.value.workersConfiguration.None? then ""
    else config.value.networks.value.workersConfiguration.value.zone
  }

  function CloudProfileErrors(old': Option<InfraConfig>, new': Option<InfraConfig>, region: string): seq<FieldError> {
    var zone := NetworkZoneOf(new');
    if zone == "" || NetworkZoneOf(old') == zone then []
    else match RegionNetworkZone(region)
      case None => []
      case Some(expected) => if zone != expected then [ZoneMismatch(ZONE_PATH)] else []
  }
}
