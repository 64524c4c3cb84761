/** pkg/controller/infrastructure: Reconcile with its rollback, Restore and Delete. */
module Infrastructure {
  import opened Wrappers
  import opened Numerals
  import opened Account
  import opened InfrastructureApi
  import opened Ensurers

  /** Everything one operation reads: the cluster, the Infrastructure resource, and what the API lists. */
  datatype Spec = Spec(
    namespace: string,
    cloudProfile: Decoded<()>,
    infraConfig: Decoded<InfraConfig>,
    controlPlane: Decoded<string>,
    credentials: bool,
    publicKey: string,
    locations: seq<Location>)

  datatype ConfigRead = Config(config: InfraConfig) | NoProviderConfig | ConfigError

  function ReadConfig(s: Spec, phase: Phase, down: set<Call>): ConfigRead {
    if s.cloudProfile.Missing? then NoProviderConfig
    else if s.cloudProfile.Undecodable? then ConfigError
    else if s.infraConfig.Missing? then NoProviderConfig
    else if s.infraConfig.Undecodable? then ConfigError
    else if ReadSecret(phase) in down || !s.credentials then ConfigError
    else Config(s.infraConfig.value)
  }

  /** The account together with the status stored in the Infrastructure resource. */
  datatype World = World(account: Resources, status: Decoded<InfraStatus>)

  datatype Outcome = Done | Failed | Panicked
  datatype Ledger = Ledger(networkID: int, sshKeyID: int)
  datatype BodyStep = BodyStep(world: World, ledger: Ledger, outcome: Outcome)
  datatype Step = Step(world: World, outcome: Outcome)

  function NewStatus(fingerprint: string, config: InfraConfig, networkID: int): InfraStatus {
    InfraStatus(fingerprint, config.floatingPoolName, if networkID > -1 then Some(FormatInt(networkID)) else None)
  }

  function OrZero(id: Option<int>): int {
    if id.Some? then id.value else 0
  }

  function ReconcileBody(lib: Library, s: Spec, down: set<Call>, w: World): BodyStep {
    var read := ReadConfig(s, Ensure, down);
    if !read.Config? || !s.controlPlane.Decoded? then BodyStep(w, Ledger(0, 0), Failed)
    else
      var k := KeyEnsured(lib, s.publicKey, w.status, down, w.account);
      if k.fingerprint.None? then BodyStep(w.(account := k.account), Ledger(0, OrZero(k.created)), Failed)
      else
        var n :=
          NetworkEnsured(lib, s.namespace, s.controlPlane.value, read.config.networks, s.locations, down, k.account);
        var w' := w.(account := n.account);
        var ledger := Ledger(OrZero(n.created), OrZero(k.created));
        if n.result == NilDereference then BodyStep(w', ledger, Panicked)
        else if n.result == NetworkError || PatchStatus in down then BodyStep(w', ledger, Failed)
        else
          var status := NewStatus(k.fingerprint.value, read.config, n.result.id);
          BodyStep(w'.(status := Decoded.Decoded(status)), ledger, Done)
  }

  function AfterCleanup(s: Spec, down: set<Call>, ledger: Ledger, a: Resources): Resources {
    if !ReadConfig(s, Cleanup, down).Config? then a
    else
      var a1 :=
        if ledger.networkID == 0 then a
        else NetworksDeleted(a, s.namespace, Some(FormatInt(ledger.networkID)), Cleanup, down).account;
      if ledger.sshKeyID == 0 then a1
      else KeyDeleted(a1, FormatInt(ledger.sshKeyID), Cleanup, down).account
  }

  function Reconciled(lib: Library, s: Spec, down: set<Call>, w: World): Step {
    var b := ReconcileBody(lib, s, down, w);
    if b.outcome == Failed then Step(b.world.(account := AfterCleanup(s, down, b.ledger, b.world.account)), Failed)
    else Step(b.world, b.outcome)
  }

  function Deleted(s: Spec, down: set<Call>, w: World): Step {
    var read := ReadConfig(s, Teardown, down);
    if read.NoProviderConfig? then Step(w, Done)
    else if read.ConfigError? then Step(w, Failed)
    else if w.status.Undecodable? then Step(w, Done)
    else
      var status := if w.status.Decoded? then w.status.value else InfraStatus("", "", None);
      var n := NetworksDeleted(w.account, s.namespace, status.workersNetworkID, Teardown, down);
      if !n.done then Step(w.(account := n.account), Failed)
      else
        var k := KeyDeleted(n.account, status.sshFingerprint, Teardown, down);
        Step(w.(account := k.account), if k.done then Done else Failed)
  }

  // ---------- the actuator ----------

  /** The Infrastructure resource; the provider status is the one the API server stores. */
  class InfrastructureResource {
    var providerStatus: Decoded<InfraStatus>

    constructor (status: Decoded<InfraStatus>)
      ensures providerStatus == status
    {
      providerStatus := status;
    }
  }

  method UpdateProviderStatus(
      infra: InfrastructureResource, status: Option<InfraStatus>, down: set<Call>)
    returns (ok: bool)
    modifies infra
    ensures ok == (status.None? || PatchStatus !in down)
    ensures infra.providerStatus ==
      if ok && status.Some? then Decoded.Decoded(status.value) else old(infra.providerStatus)
  {
    if status.None? {
      return true;
    }
    if PatchStatus in down {
      return false;
    }
    infra.providerStatus := Decoded.Decoded(status.value);
    return true;
  }

  method ReconcileOnce(
      lib: Library, client: Client, infra: InfrastructureResource, data: MethodData, s: Spec, down: set<Call>)
    returns (outcome: Outcome)
    requires data.networkID == 0 && data.sshKeyID == 0
    modifies client, infra, data
    ensures
      BodyStep(World(client.View(), infra.providerStatus), Ledger(data.networkID, data.sshKeyID), outcome)
      == ReconcileBody(lib, s, down, old(World(client.View(), infra.providerStatus)))
  {
    var actuatorConfig := ReadConfig(s, Ensure, down);
    if !actuatorConfig.Config? {
      return Failed;
    }
    if !s.controlPlane.Decoded? {
      return Failed;
    }
    var infraConfig := s.infraConfig.value;
    var fingerprint := EnsureSSHPublicKey(client, data, lib, s.publicKey, infra.providerStatus, down);
    if fingerprint.None? {
      return Failed;
    }
    var networks: NetworksObject? := null;
    if actuatorConfig.config.networks.Some? {
      networks := new NetworksObject(actuatorConfig.config.networks.value);
    }
    var workerNetworkID :=
      EnsureNetworks(client, data, lib, s.namespace, s.controlPlane.value, networks, s.locations, down);
    if workerNetworkID == NilDereference {
      return Panicked;
    }
    if workerNetworkID == NetworkError {
      return Failed;
    }
    var status := InfraStatus(fingerprint.value, "", None);
    if infraConfig.floatingPoolName != "" {
      status := status.(floatingPoolName := infraConfig.floatingPoolName);
    }
    if workerNetworkID.id > -1 {
      status := status.(workersNetworkID := Some(FormatInt(workerNetworkID.id)));
    }
    var ok := UpdateProviderStatus(infra, Some(status), down);
    return if ok then Done else Failed;
  }

  method ReconcileOnErrorCleanup(client: Client, data: MethodData, s: Spec, down: set<Call>)
    modifies client
    ensures client.View() == AfterCleanup(s, down, Ledger(data.networkID, data.sshKeyID), old(client.View()))
  {
    var actuatorConfig := ReadConfig(s, Cleanup, down);
    if actuatorConfig.Config? {
      if data.networkID != 0 {
        var _ := EnsureNetworksDeleted(client, s.namespace, Some(FormatInt(data.networkID)), Cleanup, down);
      }
      if data.sshKeyID != 0 {
        var sshKeyID := FormatInt(data.sshKeyID);
        var _ := EnsureSSHPublicKeyDeleted(client, sshKeyID, Cleanup, down);
      }
    }
  }

  method Reconcile(lib: Library, client: Client, infra: InfrastructureResource, s: Spec, down: set<Call>)
    returns (outcome: Outcome)
    modifies client, infra
    ensures
      Step(World(client.View(), infra.providerStatus), outcome)
      == Reconciled(lib, s, down, old(World(client.View(), infra.providerStatus)))
  {
    var data := new MethodData();
    outcome := ReconcileOnce(lib, client, infra, data, s, down);
    if outcome == Failed {
      ReconcileOnErrorCleanup(client, data, s, down);
    }
  }

  method Restore(lib: Library, client: Client, infra: InfrastructureResource, s: Spec, down: set<Call>)
    returns (outcome: Outcome)
    modifies client, infra
    ensures
      Step(World(client.View(), infra.providerStatus), outcome)
      == Reconciled(lib, s, down, old(World(client.View(), infra.providerStatus)))
  {
    outcome := Reconcile(lib, client, infra, s, down);
  }

  method Delete(client: Client, infra: InfrastructureResource, s: Spec, down: set<Call>) returns (outcome: Outcome)
    modifies client, infra
    ensures
      Step(World(client.View(), infra.providerStatus), outcome)
      == Deleted(s, down, old(World(client.View(), infra.providerStatus)))
  {
    var actuatorConfig := ReadConfig(s, Teardown, down);
    if actuatorConfig.NoProviderConfig? {
      var ok := UpdateProviderStatus(infra, None, down);
      return if ok then Done else Failed;
    }
    if actuatorConfig.ConfigError? {
      return Failed;
    }
    if !infra.providerStatus.Undecodable? {
      var status := InfraStatus("", "", None);
      if infra.providerStatus.Decoded? {
        status := infra.providerStatus.value;
      }
      var gone := EnsureNetworksDeleted(client, s.namespace, status.workersNetworkID, Teardown, down);
      if !gone {
        return Failed;
      }
      gone := EnsureSSHPublicKeyDeleted(client, status.sshFingerprint, Teardown, down);
      if !gone {
        return Failed;
      }
    }
    var ok := UpdateProviderStatus(infra, None, down);
    return if ok then Done else Failed;
  }
}
