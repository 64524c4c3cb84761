/** The infrastructure configuration and status resources, and the calls that can fail while acting on them. */
module InfrastructureApi {
  import opened Wrappers
  import opened Cidr
  import opened Fingerprints

  /** Library functions whose bodies are not part of this model. */
  datatype Library = Library(hashes: Hashes, parseCidr: string -> Option<Net>)

  datatype NetworkConfig = NetworkConfig(cidr: string, zone: string)
  datatype Networks = Networks(workersConfiguration: Option<NetworkConfig>, workers: string)
  datatype InfraConfig = InfraConfig(floatingPoolName: string, networks: Option<Networks>)

  datatype InfraStatus = InfraStatus(sshFingerprint: string, floatingPoolName: string, workersNetworkID: Option<string>)

  datatype Location = Location(name: string, networkZone: string)

  /** Where in an operation a call is made. */
  datatype Phase = Rotate | Ensure | Cleanup | Teardown

  /** Every call to the cloud or the API server an infrastructure operation makes; each is made at most once
      per operation. The set of calls that are down is an input of the operation. */
  datatype Call =
    | ReadSecret(phase: Phase)
    | GetKey(phase: Phase)
    | DeleteKey(phase: Phase)
    | CreateKey
    | ListLocations
    | GetNetwork(phase: Phase)
    | DeleteNetwork(phase: Phase)
    | CreateNetwork
    | PatchStatus

  /** The worker network configuration in effect: the explicit section, or one built from the plain CIDR. */
  function EffectiveConfig(n: Networks): Option<NetworkConfig> {
    if n.workersConfiguration.Some? then n.workersConfiguration
    else if n.workers != "" then Some(NetworkConfig(n.workers, ""))
    else None
  }

  // ---------- the configuration as the mutable objects the ensurer works on ----------

  class WorkersConfiguration {
    var cidr: string
    var zone: string

    constructor (c: NetworkConfig)
      ensures cidr == c.cidr && zone == c.zone
    {
      cidr, zone := c.cidr, c.zone;
    }
  }

  class NetworksObject {
    var workersConfiguration: WorkersConfiguration?
    var workers: string

    ghost function View(): Networks
      reads this, workersConfiguration
    {
      Networks(
        if workersConfiguration == null then None
        else Some(NetworkConfig(workersConfiguration.cidr, workersConfiguration.zone)),
        workers)
    }

    /** Decoding allocates fresh objects. */
    constructor (n: Networks)
      ensures View() == n
      ensures workersConfiguration != null ==> fresh(workersConfiguration)
    {
      workers := n.workers;
      if n.workersConfiguration.Some? {
        workersConfiguration := new WorkersConfiguration(n.workersConfiguration.value);
      } else {
        workersConfiguration := null;
      }
    }
  }

  /** The ledger of one Reconcile call: the ids of what this very call created. */
  class MethodData {
    var networkID: int
    var sshKeyID: int

    constructor ()
      ensures networkID == 0 && sshKeyID == 0
    {
      networkID, sshKeyID := 0, 0;
    }
  }
}
