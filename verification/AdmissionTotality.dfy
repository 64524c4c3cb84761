/** Admission and the infrastructure controller together: what the validator lets through is what the controller
    relies on without checking it again. */
module AdmissionTotality {
  import opened Wrappers
  import opened Cidr
  import opened Account
  import opened InfrastructureApi
  import opened Ensurers
  import Infra = Infrastructure
  import Steps = InfrastructureSteps
  import IV = InfraValidation
  import SA = ShootAdmission

  /** The worker network the validator checked. */
  function CheckedNet(env: SA.Env, s: SA.ShootSpec): Net
    requires s.infraConfig.Decoded? && s.infraConfig.value.networks.Some?
    requires env.lib.parseCidr(IV.WorkersCidr(s.infraConfig.value.networks.value)).Some?
  {
    env.lib.parseCidr(IV.WorkersCidr(s.infraConfig.value.networks.value)).value
  }

  /** The controller selects the CIDR the validator checked, and its unchecked parse of it cannot fail. */
  lemma ControllerSelectsCheckedCidr(env: SA.Env, s: SA.ShootSpec)
    requires SA.Lawful(env, s)
    ensures
      var c := EffectiveConfig(s.infraConfig.value.networks.value);
      && c.Some? && c.value.cidr == IV.WorkersCidr(s.infraConfig.value.networks.value)
      && env.lib.parseCidr(c.value.cidr) == Some(CheckedNet(env, s))
      && Masked(CheckedNet(env, s)) == CheckedNet(env, s)
  {
    IV.CanonicalMeaning(CheckedNet(env, s));
  }

  lemma CreatedNetwork(
      lib: Library, namespace: string, cpZone: string, networks: Networks, locations: seq<Location>, down: set<Call>,
      a: Resources)
    ensures
      var n := NetworkEnsured(lib, namespace, cpZone, Some(networks), locations, down, a);
      n.created.Some? ==>
        && EffectiveConfig(networks).Some?
        && var c := EffectiveConfig(networks).value;
        && var zone := ResolvedZone(c.zone, cpZone, locations, down);
        && zone.Some? && zone.value != "" && (c.zone != "" ==> zone.value == c.zone)
        && n.created.value in n.account.networks
        && n.account.networks[n.created.value] == NewNetwork(lib, WorkersName(namespace), c.cidr, zone.value)
        && (c.zone == "" ==> exists i ::
              IsFirstLocation(locations, cpZone, i) && locations[i].networkZone == zone.value)
  {
    var c := EffectiveConfig(networks);
    if c.Some? && ResolvedZone(c.value.zone, cpZone, locations, down).Some? {
      ResolvedZoneExactly(c.value.zone, cpZone, locations, down,
        ResolvedZone(c.value.zone, cpZone, locations, down).value);
    }
  }

  /** The network a Reconcile of a lawful shoot creates has the checked block as its range and as the range of its only
      subnet, which lies in the explicit network zone or in that of the first location of the control plane's region. */
  lemma CreatedNetworkIsChecked(env: SA.Env, s: SA.ShootSpec, spec: Infra.Spec, down: set<Call>, w: Infra.World)
    requires SA.Lawful(env, s) && spec.infraConfig == s.infraConfig && Steps.Sound(w.account)
    requires Infra.ReconcileBody(env.lib, spec, down, w).ledger.networkID != 0
    ensures
      var b := Infra.ReconcileBody(env.lib, spec, down, w);
      && b.ledger.networkID in b.world.account.networks
      && var network := b.world.account.networks[b.ledger.networkID];
      && network.name == WorkersName(spec.namespace)
      && network.ipRange == Some(CheckedNet(env, s))
      && |network.subnets| == 1 && network.subnets[0].ipRange == network.ipRange
      && network.subnets[0].networkZone != ""
      && (SA.Zone(s) != "" ==> network.subnets[0].networkZone == SA.Zone(s))
      && (SA.Zone(s) == "" ==> exists i ::
            && IsFirstLocation(spec.locations, spec.controlPlane.value, i)
            && spec.locations[i].networkZone == network.subnets[0].networkZone)
  {
    ControllerSelectsCheckedCidr(env, s);
    var k := KeyEnsured(env.lib, spec.publicKey, w.status, down, w.account);
    CreatedNetwork(env.lib, spec.namespace, spec.controlPlane.value,
      s.infraConfig.value.networks.value, spec.locations, down, k.account);
  }

  /** For a lawful shoot no Reconcile dereferences nil, and every success records the network found by name. */
  lemma LawfulShootsReconcile(env: SA.Env, s: SA.ShootSpec, spec: Infra.Spec, down: set<Call>, w: Infra.World)
    requires SA.Lawful(env, s) && spec.infraConfig == s.infraConfig && Steps.Sound(w.account)
    ensures
      var r := Infra.Reconciled(env.lib, spec, down, w);
      && r.outcome != Infra.Panicked
      && (r.outcome == Infra.Done ==>
            && r.world.status.Decoded?
            && var found := FindNetwork(r.world.account.networks, WorkersName(spec.namespace));
            && found.Some? && found.value > 0
            && r.world.status.value.workersNetworkID == Steps.RecordedID(found))
  {
    ControllerSelectsCheckedCidr(env, s);
    if Infra.Reconciled(env.lib, spec, down, w).outcome == Infra.Done {
      Steps.SuccessRecordsNetwork(env.lib, spec, down, w);
    }
  }

  /** Whichever admitted version of a shoot the controller acts on, a network it creates has the range checked at
      creation and, with an explicit zone, lies in the network zone of the region the shoot was created in. */
  lemma OneNetworkPerHistory(
      env: SA.Env, fields: seq<SA.Fields>, shoots: seq<SA.ShootSpec>, k: nat,
      spec: Infra.Spec, down: set<Call>, w: Infra.World)
    requires SA.History(env, fields, shoots) && k < |shoots|
    requires spec.infraConfig == shoots[k].infraConfig && Steps.Sound(w.account)
    requires Infra.ReconcileBody(env.lib, spec, down, w).ledger.networkID != 0
    ensures SA.Lawful(env, shoots[0])
    ensures
      var b := Infra.ReconcileBody(env.lib, spec, down, w);
      && b.ledger.networkID in b.world.account.networks
      && var network := b.world.account.networks[b.ledger.networkID];
      && network.ipRange == Some(CheckedNet(env, shoots[0]))
      && |network.subnets| == 1
      && (SA.Zone(shoots[k]) != "" && IV.RegionNetworkZone(shoots[0].region).Some? ==>
            network.subnets[0].networkZone == IV.RegionNetworkZone(shoots[0].region).value)
  {
    SA.EveryAdmittedShoot(env, fields, shoots, k);
    CreatedNetworkIsChecked(env, shoots[k], spec, down, w);
  }

  /** An accepted worker network consists of private addresses only, exactly when it is none of the four blocks
      that start in a private range and are wider than it. */
  lemma LawfulNetworkIsPrivate(env: SA.Env, s: SA.ShootSpec)
    requires SA.Lawful(env, s)
    ensures AllPrivate(CheckedNet(env, s)) <==> !TooWide(CheckedNet(env, s))
  {
    var w := CheckedNet(env, s);
    var r :| r in PrivateRanges() && Contains(r, Address(w.family, First(w)));
    PrivateExactly(w, r);
  }

  /** Without a decoder in the validator the two sides never meet: every shoot it admits lacks the control plane
      configuration, and for such a shoot every Reconcile fails before it touches anything. */
  lemma AdmittedWithoutDecoderNeverReconciles(
      env: SA.Env, f: SA.Fields, s: SA.ShootSpec, old': Option<SA.Object>,
      spec: Infra.Spec, down: set<Call>, w: Infra.World)
    requires !f.decoder && SA.Validate(env, f, SA.Shoot(s), old').Admitted?
    requires s.controlPlane.None? ==> spec.controlPlane.Missing?
    ensures Infra.Reconciled(env.lib, spec, down, w) == Infra.Step(w, Infra.Failed)
  {
    if s.controlPlane.Some? {
      SA.ControlPlaneNeedsDecoder(env, f, s, old');
    }
  }
}
