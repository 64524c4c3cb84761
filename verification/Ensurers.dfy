/** pkg/controller/infrastructure/ensurer: the SSH key and the worker network of a shoot. */
module Ensurers {
  import opened Wrappers
  import opened Cidr
  import opened Fingerprints
  import opened Account
  import opened InfrastructureApi

  // ---------- SSH keys ----------

  datatype Deletion = Deletion(account: Resources, done: bool)

  function KeyDeleted(a: Resources, fingerprint: string, phase: Phase, down: set<Call>): Deletion {
    if fingerprint == "" then Deletion(a, true)
    else if GetKey(phase) in down then Deletion(a, false)
    else match FindKey(a.keys, fingerprint)
      case None => Deletion(a, true)
      case Some(id) =>
        if DeleteKey(phase) in down then Deletion(a, false) else Deletion(a.(keys := a.keys - {id}), true)
  }

  method EnsureSSHPublicKeyDeleted(client: Client, fingerprint: string, phase: Phase, down: set<Call>)
    returns (done: bool)
    modifies client
    ensures Deletion(client.View(), done) == KeyDeleted(old(client.View()), fingerprint, phase, down)
  {
    if fingerprint != "" {
      var found := client.GetKeyByFingerprint(fingerprint, GetKey(phase) in down);
      if found.Unavailable? {
        return false;
      }
      if found.value.Some? {
        var deleted := client.DeleteKey(found.value.value, DeleteKey(phase) in down);
        if !deleted {
          return false;
        }
      }
    }
    return true;
  }

  /** The fingerprint in effect on success, and the id of the key if one was created. */
  datatype KeyStep = KeyStep(account: Resources, created: Option<int>, fingerprint: Option<string>)

  function StatusFingerprint(status: Decoded<InfraStatus>): string {
    if status.Decoded? then status.value.sshFingerprint else ""
  }

  function KeyName(fingerprint: string): string {
    "infrastructure-ssh-" + fingerprint
  }

  function KeyPresent(a: Resources, fingerprint: string, down: set<Call>): KeyStep {
    if GetKey(Ensure) in down then KeyStep(a, None, None)
    else if FindKey(a.keys, fingerprint).Some? then KeyStep(a, None, Some(fingerprint))
    else if CreateKey in down then KeyStep(a, None, None)
    else
      var a' := AddKey(a, SSHKey(KeyName(fingerprint), fingerprint));
      KeyStep(a', Some(a'.lastId), Some(fingerprint))
  }

  function KeyEnsured(
      lib: Library, publicKey: string, status: Decoded<InfraStatus>, down: set<Call>, a: Resources): KeyStep
  {
    if publicKey == "" || status.Undecodable? then KeyStep(a, None, None)
    else match Fingerprint(lib.hashes, publicKey)
      case None => KeyStep(a, None, None)
      case Some(fp) =>
        var rotated :=
          if StatusFingerprint(status) != fp then KeyDeleted(a, StatusFingerprint(status), Rotate, down)
          else Deletion(a, true);
        if rotated.done then KeyPresent(rotated.account, fp, down) else KeyStep(rotated.account, None, None)
  }

  method EnsureSSHPublicKey(
      client: Client, data: MethodData, lib: Library, publicKey: string, status: Decoded<InfraStatus>, down: set<Call>)
    returns (fingerprint: Option<string>)
    modifies client, data`sshKeyID
    ensures
      var step := KeyEnsured(lib, publicKey, status, down, old(client.View()));
      && client.View() == step.account
      && fingerprint == step.fingerprint
      && data.sshKeyID == (if step.created.Some? then step.created.value else old(data.sshKeyID))
  {
    if |publicKey| == 0 {
      return None;
    }
    if status.Undecodable? {
      return None;
    }
    var oldFingerprint := StatusFingerprint(status);
    var computed := GetSSHFingerprint(lib.hashes, publicKey);
    if computed.None? {
      return None;
    }
    if oldFingerprint != computed.value {
      var deleted := EnsureSSHPublicKeyDeleted(client, oldFingerprint, Rotate, down);
      if !deleted {
        return None;
      }
    }
    var found := client.GetKeyByFingerprint(computed.value, GetKey(Ensure) in down);
    if found.Unavailable? {
      return None;
    }
    if found.value.None? {
      var created := client.CreateKey(SSHKey(KeyName(computed.value), computed.value), CreateKey in down);
      if created.Unavailable? {
        return None;
      }
      data.sshKeyID := created.value;
    }
    return computed;
  }

  // ---------- networks ----------

  function WorkersName(namespace: string): string {
    namespace + "-workers"
  }

  /** The network zone of the first location of that name. */
  function LocationZone(region: string, locations: seq<Location>): string {
    if locations == [] then ""
    else if locations[0].name == region then locations[0].networkZone
    else LocationZone(region, locations[1..])
  }

  datatype NetworkResult = NetworkID(id: int) | NetworkError | NilDereference
  datatype NetworkStep = NetworkStep(account: Resources, created: Option<int>, result: NetworkResult)

  /** The configured zone, or the one resolved from the control plane zone; None when that fails. */
  function ResolvedZone(zone: string, cpZone: string, locations: seq<Location>, down: set<Call>): Option<string> {
    if zone != "" then Some(zone)
    else if ListLocations in down then None
    else
      var resolved := LocationZone(GetRegionFromZone(cpZone), locations);
      if resolved == "" then None else Some(resolved)
  }

  function NewNetwork(lib: Library, name: string, cidr: string, zone: string): Network {
    var ipRange := match lib.parseCidr(cidr)
      case None => None
      case Some(net) => Some(Masked(net));
    Network(name, ipRange, [Subnet(ipRange, zone)])
  }

  /** The range of a new network, which is also that of its only subnet: the masked block the text parses to, with the
      same addresses; none when it does not parse. */
  lemma NewNetworkRange(lib: Library, name: string, cidr: string, zone: string)
    ensures
      var n := NewNetwork(lib, name, cidr, zone);
      && n.name == name && n.subnets == [Subnet(n.ipRange, zone)]
      && (lib.parseCidr(cidr).None? <==> n.ipRange.None?)
      && (n.ipRange.Some? ==>
            && Canonical(n.ipRange.value)
            && n.ipRange.value.prefix == lib.parseCidr(cidr).value.prefix
            && forall x :: Contains(n.ipRange.value, x) <==> Contains(lib.parseCidr(cidr).value, x))
  {
    if lib.parseCidr(cidr).Some? {
      FirstOfFirst(lib.parseCidr(cidr).value);
    }
  }

  function NetworkEnsured(
      lib: Library, namespace: string, cpZone: string, networks: Option<Networks>, locations: seq<Location>,
      down: set<Call>, a: Resources): NetworkStep
  {
    if networks.None? then NetworkStep(a, None, NilDereference)
    else match EffectiveConfig(networks.value)
      case None => NetworkStep(a, None, NetworkID(-1))
      case Some(c) =>
        match ResolvedZone(c.zone, cpZone, locations, down)
        case None => NetworkStep(a, None, NetworkError)
        case Some(zone) =>
          if GetNetwork(Ensure) in down then NetworkStep(a, None, NetworkError)
          else match FindNetwork(a.networks, WorkersName(namespace))
            case Some(id) => NetworkStep(a, None, NetworkID(id))
            case None =>
              if CreateNetwork in down then NetworkStep(a, None, NetworkError)
              else
                var a' := AddNetwork(a, NewNetwork(lib, WorkersName(namespace), c.cidr, zone));
                NetworkStep(a', Some(a'.lastId), NetworkID(a'.lastId))
  }

  lemma FirstMatch(region: string, locations: seq<Location>, i: nat)
    requires i < |locations| && locations[i].name == region
    requires forall j | 0 <= j < i :: locations[j].name != region
    ensures LocationZone(region, locations) == locations[i].networkZone
  {
    if i == 0 {
    } else {
      FirstMatch(region, locations[1..], i - 1);
    }
  }

  lemma NoMatch(region: string, locations: seq<Location>)
    requires forall j | 0 <= j < |locations| :: locations[j].name != region
    ensures LocationZone(region, locations) == ""
  {
  }

  /** Location i is the first one whose name is the part of the zone before its first dash. */
  ghost predicate IsFirstLocation(locations: seq<Location>, cpZone: string, i: int) {
    && 0 <= i < |locations| && BeforeDash(locations[i].name, cpZone)
    && forall j | 0 <= j < i :: !BeforeDash(locations[j].name, cpZone)
  }

  lemma LocationZoneAt(cpZone: string, locations: seq<Location>, i: nat)
    requires IsFirstLocation(locations, cpZone, i)
    ensures LocationZone(GetRegionFromZone(cpZone), locations) == locations[i].networkZone
  {
    forall j | 0 <= j <= i ensures locations[j].name == GetRegionFromZone(cpZone) <==> j == i {
      RegionIff(locations[j].name, cpZone);
    }
    FirstMatch(GetRegionFromZone(cpZone), locations, i);
  }

  lemma LocationZoneNowhere(cpZone: string, locations: seq<Location>)
    requires forall j | 0 <= j < |locations| :: !BeforeDash(locations[j].name, cpZone)
    ensures LocationZone(GetRegionFromZone(cpZone), locations) == ""
  {
    forall j | 0 <= j < |locations| ensures locations[j].name != GetRegionFromZone(cpZone) {
      RegionIff(locations[j].name, cpZone);
    }
    NoMatch(GetRegionFromZone(cpZone), locations);
  }

  lemma {:induction false} FirstLocationExists(locations: seq<Location>, cpZone: string, j: nat) returns (i: nat)
    requires j < |locations| && BeforeDash(locations[j].name, cpZone)
    ensures IsFirstLocation(locations, cpZone, i)
    decreases j
  {
    if k: nat :| k < j && BeforeDash(locations[k].name, cpZone) {
      i := FirstLocationExists(locations, cpZone, k);
    } else {
      i := j;
    }
  }

  /** Which zone is resolved: an explicit one is kept; otherwise it is that of the first location named like the part of
      the control plane zone before its first dash. There is none when the locations cannot be listed, no location has
      that name, or the first one has no network zone. */
  lemma ResolvedZoneExactly(zone: string, cpZone: string, locations: seq<Location>, down: set<Call>, resolved: string)
    ensures
      ResolvedZone(zone, cpZone, locations, down) == Some(resolved) <==>
        && resolved != ""
        && (if zone != "" then resolved == zone
            else
              && ListLocations !in down
              && exists i :: IsFirstLocation(locations, cpZone, i) && locations[i].networkZone == resolved)
  {
    forall i: nat | IsFirstLocation(locations, cpZone, i)
      ensures LocationZone(GetRegionFromZone(cpZone), locations) == locations[i].networkZone
    {
      LocationZoneAt(cpZone, locations, i);
    }
    if j: nat :| j < |locations| && BeforeDash(locations[j].name, cpZone) {
      var i := FirstLocationExists(locations, cpZone, j);
    } else {
      LocationZoneNowhere(cpZone, locations);
    }
  }

  /** Writes the resolved zone into the configuration object it was given. */
  method ResolveZone(config: WorkersConfiguration, cpZone: string, locations: seq<Location>, down: set<Call>)
    returns (ok: bool)
    modifies config`zone
    ensures
      match ResolvedZone(old(config.zone), cpZone, locations, down)
      case Some(zone) => ok && config.zone == zone
      case None => !ok && config.zone == ""
  {
    if config.zone != "" {
      return true;
    }
    var locationName := GetRegionFromZone(cpZone);
    if ListLocations in down {
      return false;
    }
    var i := 0;
    while i < |locations|
      invariant 0 <= i <= |locations| && config.zone == ""
      invariant forall j | 0 <= j < i :: locations[j].name != locationName
    {
      if locationName == locations[i].name {
        config.zone := locations[i].networkZone;
        FirstMatch(locationName, locations, i);
        return config.zone != "";
      }
      i := i + 1;
    }
    NoMatch(locationName, locations);
    return false;
  }

  method EnsureNetworks(
      client: Client, data: MethodData, lib: Library, namespace: string, cpZone: string,
      networks: NetworksObject?, locations: seq<Location>, down: set<Call>)
    returns (r: NetworkResult)
    modifies client, data`networkID
    modifies if networks == null || networks.workersConfiguration == null then {} else {networks.workersConfiguration}
    ensures
      var config := if networks == null then None else Some(old(networks.View()));
      var step := NetworkEnsured(lib, namespace, cpZone, config, locations, down, old(client.View()));
      && client.View() == step.account
      && r == step.result
      && data.networkID == (if step.created.Some? then step.created.value else old(data.networkID))
    // the zone is resolved in place, in the caller's own configuration object
    ensures networks != null && networks.workersConfiguration != null ==>
      && networks.workersConfiguration.cidr == old(networks.workersConfiguration.cidr)
      && networks.workersConfiguration.zone ==
         match ResolvedZone(old(networks.workersConfiguration.zone), cpZone, locations, down)
         case Some(zone) => zone
         case None => ""
  {
    if networks == null {
      return NilDereference;
    }
    var config := networks.workersConfiguration;
    if config == null && networks.workers != "" {
      config := new WorkersConfiguration(NetworkConfig(networks.workers, ""));
    }
    if config == null {
      return NetworkID(-1);
    }
    var resolved := ResolveZone(config, cpZone, locations, down);
    if !resolved {
      return NetworkError;
    }
    var name := WorkersName(namespace);
    var found := client.GetNetworkByName(name, GetNetwork(Ensure) in down);
    if found.Unavailable? {
      return NetworkError;
    }
    if found.value.Some? {
      return NetworkID(found.value.value);
    }
    var created := client.CreateNetwork(NewNetwork(lib, name, config.cidr, config.zone), CreateNetwork in down);
    if created.Unavailable? {
      return NetworkError;
    }
    data.networkID := created.value;
    return NetworkID(created.value);
  }

  function NetworksDeleted(
      a: Resources, namespace: string, workersID: Option<string>, phase: Phase, down: set<Call>): Deletion
  {
    if workersID.None? || workersID.value == "" then Deletion(a, true)
    else if GetNetwork(phase) in down then Deletion(a, false)
    else match FindNetwork(a.networks, WorkersName(namespace))
      case None => Deletion(a, true)
      case Some(id) =>
        if DeleteNetwork(phase) in down then Deletion(a, false) else Deletion(a.(networks := a.networks - {id}), true)
  }

  method EnsureNetworksDeleted(
      client: Client, namespace: string, workersID: Option<string>, phase: Phase, down: set<Call>)
    returns (done: bool)
    modifies client
    ensures Deletion(client.View(), done) == NetworksDeleted(old(client.View()), namespace, workersID, phase, down)
  {
    if workersID.Some? && workersID.value != "" {
      var found := client.GetNetworkByName(WorkersName(namespace), GetNetwork(phase) in down);
      if found.Unavailable? {
        return false;
      }
      if found.value.Some? {
        var deleted := client.DeleteNetwork(found.value.value, DeleteNetwork(phase) in down);
        if !deleted {
          return false;
        }
      }
    }
    return true;
  }
}
