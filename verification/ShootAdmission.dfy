/** pkg/webhook/validator/shoot.go: admission of shoots, and what holds in every shoot it lets through. */
module ShootAdmission {
  import opened Wrappers
  import opened InfrastructureApi
  import IV = InfraValidation
  import WV = WorkerValidation

  datatype Networking = Networking(nodes: Option<string>, pods: Option<string>, services: Option<string>)

  datatype ShootSpec = ShootSpec(
    region: string,
    cloudProfileName: Option<string>,
    networking: Option<Networking>,
    infraConfig: Decoded<InfraConfig>,
    controlPlane: Option<Decoded<()>>,
    workers: seq<WV.Worker>)

  datatype Object = Shoot(spec: ShootSpec) | OtherKind

  datatype Verdict = Admitted | Refused | Crashed

  /** Library functions, with the rule that says when zones are immutable. */
  datatype Env = Env(lib: Library, enforce: (seq<string>, seq<string>) -> bool)

  /** The validator's fields: the cloud profiles its client can read, if it has a client, and whether it has a
      decoder. */
  datatype Fields = Fields(client: Option<set<string>>, decoder: bool)

  // ---------- the decision chains ----------

  predicate NetworkingOk(lib: Library, n: Option<Networking>) {
    n.Some? && IV.IsSet(n.value.nodes) && lib.parseCidr(n.value.nodes.value).Some?
  }

  function ValidateControlPlane(f: Fields, controlPlane: Option<Decoded<()>>): Verdict {
    if controlPlane.None? then Admitted
    else if controlPlane.value.Missing? then Refused
    else if !f.decoder then Crashed
    else if controlPlane.value.Undecodable? then Refused
    else Admitted
  }

  function ValidateShoot(env: Env, f: Fields, s: ShootSpec): Verdict {
    if !NetworkingOk(env.lib, s.networking) || !s.infraConfig.Decoded? then Refused
    else
      var n := s.networking.value;
      if IV.Errors(env.lib, Some(s.infraConfig.value), n.nodes, n.pods, n.services, true) != [] then Refused
      else
        var cp := ValidateControlPlane(f, s.controlPlane);
        if !cp.Admitted? then cp
        else match WV.AllErrors(s.workers)
          case NilDereference => Crashed
          case Errors(list) => if list == [] then Admitted else Refused
  }

  function ValidateAgainstCloudProfile(f: Fields, s: ShootSpec, old': Option<InfraConfig>, new': InfraConfig): Verdict {
    if f.client.None? || s.cloudProfileName.None? then Crashed
    else if s.cloudProfileName.value !in f.client.value then Refused
    else if IV.CloudProfileErrors(old', Some(new'), s.region) != [] then Refused
    else Admitted
  }

  function ValidateShootCreation(env: Env, f: Fields, s: ShootSpec): Verdict {
    if !s.infraConfig.Decoded? then Refused
    else
      var profile := ValidateAgainstCloudProfile(f, s, None, s.infraConfig.value);
      if profile.Admitted? then ValidateShoot(env, f, s) else profile
  }

  function ValidateShootUpdate(env: Env, f: Fields, old': ShootSpec, s: ShootSpec): Verdict {
    if !s.infraConfig.Decoded? || !old'.infraConfig.Decoded? then Refused
    else
      var oldConfig, newConfig := old'.infraConfig.value, s.infraConfig.value;
      if oldConfig != newConfig && IV.UpdateErrors(oldConfig, newConfig) != [] then Refused
      else
        var profile := ValidateAgainstCloudProfile(f, s, Some(oldConfig), newConfig);
        if !profile.Admitted? then profile
        else if WV.UpdateErrors(env.enforce, old'.workers, s.workers) != [] then Refused
        else ValidateShoot(env, f, s)
  }

  function Validate(env: Env, f: Fields, new': Object, old': Option<Object>): Verdict {
    if new'.OtherKind? then Refused
    else if old'.None? then ValidateShootCreation(env, f, new'.spec)
    else if old'.value.OtherKind? then Refused
    else ValidateShootUpdate(env, f, old'.value.spec, new'.spec)
  }

  /** The validator object. Nothing ever sets its decoder. */
  class ShootValidator {
    var client: Option<set<string>>
    var decoder: bool

    function View(): Fields
      reads this
    {
      Fields(client, decoder)
    }

    constructor ()
      ensures View() == Fields(None, false)
    {
      client, decoder := None, false;
    }

    method InjectClient(profiles: set<string>)
      modifies this`client
      ensures View() == Fields(Some(profiles), old(decoder))
    {
      client := Some(profiles);
    }

    method CheckShoot(env: Env, s: ShootSpec) returns (v: Verdict)
      ensures v == ValidateShoot(env, View(), s)
    {
      if !NetworkingOk(env.lib, s.networking) {
        return Refused;
      }
      if !s.infraConfig.Decoded? {
        return Refused;
      }
      var n := s.networking.value;
      var infraErrs :=
        IV.ValidateInfrastructureConfig(env.lib, Some(s.infraConfig.value), n.nodes, n.pods, n.services);
      IV.EmptyInEitherOrder(env.lib, Some(s.infraConfig.value), n.nodes, n.pods, n.services);
      if |infraErrs| != 0 {
        return Refused;
      }
      if s.controlPlane.Some? {
        if s.controlPlane.value.Missing? {
          return Refused;
        }
        if !decoder {
          return Crashed;
        }
        if s.controlPlane.value.Undecodable? {
          return Refused;
        }
      }
      var workers := WV.ValidateWorkers(s.workers);
      if workers.NilDereference? {
        return Crashed;
      }
      return if |workers.list| != 0 then Refused else Admitted;
    }

    method CheckAgainstCloudProfile(s: ShootSpec, old': Option<InfraConfig>, new': InfraConfig) returns (v: Verdict)
      ensures v == ValidateAgainstCloudProfile(View(), s, old', new')
    {
      if client.None? {
        return Crashed;
      }
      if s.cloudProfileName.None? {
        return Crashed;
      }
      if s.cloudProfileName.value !in client.value {
        return Refused;
      }
      var errs := IV.CloudProfileErrors(old', Some(new'), s.region);
      return if |errs| != 0 then Refused else Admitted;
    }

    method CheckCreation(env: Env, s: ShootSpec) returns (v: Verdict)
      ensures v == ValidateShootCreation(env, View(), s)
    {
      if !s.infraConfig.Decoded? {
        return Refused;
      }
      v := CheckAgainstCloudProfile(s, None, s.infraConfig.value);
      if v.Admitted? {
        v := CheckShoot(env, s);
      }
    }

    method CheckUpdate(env: Env, old': ShootSpec, s: ShootSpec) returns (v: Verdict)
      ensures v == ValidateShootUpdate(env, View(), old', s)
    {
      if !s.infraConfig.Decoded? {
        return Refused;
      }
      if !old'.infraConfig.Decoded? {
        return Refused;
      }
      var infraConfig, oldInfraConfig := s.infraConfig.value, old'.infraConfig.value;
      if oldInfraConfig != infraConfig {
        var errs := IV.UpdateErrors(oldInfraConfig, infraConfig);
        if |errs| != 0 {
          return Refused;
        }
      }
      v := CheckAgainstCloudProfile(s, Some(oldInfraConfig), infraConfig);
      if !v.Admitted? {
        return;
      }
      var workerErrs := WV.ValidateWorkersUpdate(env.enforce, old'.workers, s.workers);
      if |workerErrs| != 0 {
        return Refused;
      }
      v := CheckShoot(env, s);
    }

    /** The whole chain, with the loops over networks and workers; their map order does not reach the verdict. */
    method Check(env: Env, new': Object, old': Option<Object>) returns (v: Verdict)
      ensures v == Validate(env, View(), new', old')
    {
      if !new'.Shoot? {
        return Refused;
      }
      if old'.Some? {
        if !old'.value.Shoot? {
          return Refused;
        }
        v := CheckUpdate(env, old'.value.spec, new'.spec);
      } else {
        v := CheckCreation(env, new'.spec);
      }
    }
  }

  // ---------- what admission establishes ----------

  /** The rules every admitted specification obeys by itself, over sets of addresses. */
  ghost predicate Lawful(env: Env, s: ShootSpec) {
    && s.networking.Some? && s.infraConfig.Decoded?
    && s.networking.value.nodes.Some? && s.networking.value.nodes.value != ""
    && env.lib.parseCidr(s.networking.value.nodes.value).Some?
    && IV.Acceptable(env.lib, Some(s.infraConfig.value), s.networking.value.nodes, s.networking.value.pods,
         s.networking.value.services)
    && (forall i | 0 <= i < |s.workers| :: WV.GoodPool(s.workers[i]))
  }

  lemma ValidShootIsLawful(env: Env, f: Fields, s: ShootSpec)
    ensures ValidateShoot(env, f, s).Admitted? <==> Lawful(env, s) && ValidateControlPlane(f, s.controlPlane).Admitted?
  {
    if NetworkingOk(env.lib, s.networking) && s.infraConfig.Decoded? {
      var n := s.networking.value;
      IV.NoErrorsIffAcceptable(env.lib, Some(s.infraConfig.value), n.nodes, n.pods, n.services, true);
      WV.AcceptedIffGood(s.workers);
    }
  }

  /** What the validator says of a control plane configuration: one without content is refused before a decoder is
      asked for; without a decoder any other one crashes. */
  lemma ControlPlaneVerdict(f: Fields, controlPlane: Option<Decoded<()>>)
    ensures
      ValidateControlPlane(f, controlPlane) == Admitted <==>
        controlPlane.None? || (f.decoder && controlPlane.value.Decoded?)
    ensures
      ValidateControlPlane(f, controlPlane) == Crashed <==>
        controlPlane.Some? && !controlPlane.value.Missing? && !f.decoder
  {
  }

  /** A lawful part is there, but a nil pointer is dereferenced: by a control plane configuration without a decoder,
      or by a pool with zones whose configuration does not decode or that is spread without a surge. */
  ghost predicate ShootCrashes(env: Env, f: Fields, s: ShootSpec) {
    && s.networking.Some? && s.infraConfig.Decoded? && IV.ShootNet(env.lib, s.networking.value.nodes).Some?
    && IV.Acceptable(env.lib, Some(s.infraConfig.value), s.networking.value.nodes, s.networking.value.pods,
         s.networking.value.services)
    && ((s.controlPlane.Some? && !s.controlPlane.value.Missing? && !f.decoder)
        || ((s.controlPlane.None? || (f.decoder && s.controlPlane.value.Decoded?))
            && exists w | w in s.workers ::
                 w.zones != []
                 && (w.providerConfig.Undecodable?
                     || (w.providerConfig == Decoded.Decoded(WV.Spread) && w.maxSurge.None?))))
  }

  lemma ShootCrashesIff(env: Env, f: Fields, s: ShootSpec)
    ensures ValidateShoot(env, f, s).Crashed? <==> ShootCrashes(env, f, s)
  {
    if NetworkingOk(env.lib, s.networking) && s.infraConfig.Decoded? {
      var n := s.networking.value;
      IV.NoErrorsIffAcceptable(env.lib, Some(s.infraConfig.value), n.nodes, n.pods, n.services, true);
      ControlPlaneVerdict(f, s.controlPlane);
      WV.ReportsExactly(s.workers, WV.ZonesRequired(0));
    }
  }

  /** The explicit network zone of a specification, if there is one. */
  function Zone(s: ShootSpec): string {
    if s.infraConfig.Decoded? then IV.NetworkZoneOf(Some(s.infraConfig.value)) else ""
  }

  /** The explicit network zone hosts the region, as far as the region is known. */
  predicate ZoneHosts(zone: string, region: string) {
    zone == "" || IV.RegionNetworkZone(region).None? || IV.RegionNetworkZone(region) == Some(zone)
  }

  predicate ProfileReadable(f: Fields, s: ShootSpec) {
    f.client.Some? && s.cloudProfileName.Some? && s.cloudProfileName.value in f.client.value
  }

  /** A creation is admitted exactly if the shoot is lawful, its control plane configuration passes, its cloud profile
      can be read and an explicit zone hosts its region. */
  lemma CreationAdmittedIff(env: Env, f: Fields, s: ShootSpec)
    ensures Validate(env, f, Shoot(s), None).Admitted? <==>
      && Lawful(env, s) && ValidateControlPlane(f, s.controlPlane).Admitted?
      && ProfileReadable(f, s) && ZoneHosts(Zone(s), s.region)
  {
    ValidShootIsLawful(env, f, s);
  }

  /** On an update that keeps the networks section the zone was there before, so only the profile has to be readable. */
  lemma ProfileAdmitsUpdate(f: Fields, s: ShootSpec, old': InfraConfig, new': InfraConfig)
    requires new'.networks == old'.networks
    ensures ValidateAgainstCloudProfile(f, s, Some(old'), new').Admitted? <==> ProfileReadable(f, s)
  {
  }

  /** An update is admitted exactly if the new shoot is lawful, its control plane configuration passes, its cloud
      profile can be read, the networks section stays, and so do the zones of every pool where they are immutable. */
  lemma UpdateAdmittedIff(env: Env, f: Fields, old': ShootSpec, s: ShootSpec)
    ensures Validate(env, f, Shoot(s), Some(Shoot(old'))).Admitted? <==>
      && Lawful(env, s) && ValidateControlPlane(f, s.controlPlane).Admitted?
      && ProfileReadable(f, s) && old'.infraConfig.Decoded?
      && s.infraConfig.value.networks == old'.infraConfig.value.networks
      && (forall i | 0 <= i < |s.workers| :: !WV.ZonesChanged(env.enforce, old'.workers, s.workers[i]))
  {
    ValidShootIsLawful(env, f, s);
    WV.UpdateAcceptedIff(env.enforce, old'.workers, s.workers);
    if s.infraConfig.Decoded? && old'.infraConfig.Decoded? {
      if s.infraConfig.value.networks == old'.infraConfig.value.networks {
        ProfileAdmitsUpdate(f, s, old'.infraConfig.value, s.infraConfig.value);
      }
    }
  }

  /** The validator has no client, or the shoot names no cloud profile. */
  predicate ProfileCrashes(f: Fields, s: ShootSpec) {
    f.client.None? || s.cloudProfileName.None?
  }

  /** When a creation crashes the validator: its configuration is decoded, and then reading the profile does, or the
      profile is readable, the zone hosts the region and the shoot itself does. */
  lemma CreationCrashesIff(env: Env, f: Fields, s: ShootSpec)
    ensures Validate(env, f, Shoot(s), None).Crashed? <==>
      && s.infraConfig.Decoded?
      && (ProfileCrashes(f, s)
          || (ProfileReadable(f, s) && ZoneHosts(Zone(s), s.region) && ShootCrashes(env, f, s)))
  {
    ShootCrashesIff(env, f, s);
  }

  /** And an update: the networks section is the old one, and then reading the profile crashes, or the profile is
      readable, no pool changed immutable zones and the shoot itself crashes. */
  lemma UpdateCrashesIff(env: Env, f: Fields, old': ShootSpec, s: ShootSpec)
    ensures Validate(env, f, Shoot(s), Some(Shoot(old'))).Crashed? <==>
      && s.infraConfig.Decoded? && old'.infraConfig.Decoded?
      && s.infraConfig.value.networks == old'.infraConfig.value.networks
      && (ProfileCrashes(f, s)
          || (&& ProfileReadable(f, s)
              && (forall i | 0 <= i < |s.workers| :: !WV.ZonesChanged(env.enforce, old'.workers, s.workers[i]))
              && ShootCrashes(env, f, s)))
  {
    ShootCrashesIff(env, f, s);
    WV.UpdateAcceptedIff(env.enforce, old'.workers, s.workers);
    if s.infraConfig.Decoded? && old'.infraConfig.Decoded? {
      if s.infraConfig.value.networks == old'.infraConfig.value.networks {
        ProfileAdmitsUpdate(f, s, old'.infraConfig.value, s.infraConfig.value);
      }
    }
  }

  /** Anything but a shoot, or an update of anything else to a shoot, is refused. */
  lemma OnlyShootsPass(env: Env, f: Fields, new': Object, old': Option<Object>)
    requires new'.OtherKind? || old' == Some(OtherKind)
    ensures Validate(env, f, new', old') == Refused
  {
  }

  /** A history: a shoot that was created and then updated any number of times, each step admitted. */
  ghost predicate History(env: Env, fields: seq<Fields>, shoots: seq<ShootSpec>) {
    && |fields| == |shoots| > 0
    && Validate(env, fields[0], Shoot(shoots[0]), None).Admitted?
    && (forall i, j | 0 <= i < j < |shoots| && j == i + 1 ::
          Validate(env, fields[j], Shoot(shoots[j]), Some(Shoot(shoots[i]))).Admitted?)
  }

  /** In every shoot ever reached: the networks section is still the one of the creation, every rule holds for the
      current specification, and an explicit zone hosts the region the shoot was created in. */
  lemma {:induction false} EveryAdmittedShoot(env: Env, fields: seq<Fields>, shoots: seq<ShootSpec>, k: nat)
    requires History(env, fields, shoots) && k < |shoots|
    ensures Lawful(env, shoots[k]) && Lawful(env, shoots[0])
    ensures shoots[k].infraConfig.value.networks == shoots[0].infraConfig.value.networks
    ensures ZoneHosts(Zone(shoots[k]), shoots[0].region)
  {
    if k == 0 {
      CreationAdmittedIff(env, fields[0], shoots[0]);
    } else {
      EveryAdmittedShoot(env, fields, shoots, k - 1);
      UpdateAdmittedIff(env, fields[k], shoots[k - 1], shoots[k]);
    }
  }

  /** The zones of the first pool of that name. */
  function ZonesOf(s: ShootSpec, name: string): seq<string> {
    var w := WV.FirstNamed(s.workers, name);
    if w.Some? then w.value.zones else []
  }

  lemma {:induction false} ZonesChain(
      r: (seq<string>, seq<string>) -> bool, shoots: seq<ShootSpec>, j: nat, k: nat, name: string)
    requires j <= k < |shoots|
    requires forall z :: r(z, z)
    requires forall x, y, z :: r(x, y) && r(y, z) ==> r(x, z)
    requires forall a, b | j <= a < b <= k && b == a + 1 :: r(ZonesOf(shoots[a], name), ZonesOf(shoots[b], name))
    ensures r(ZonesOf(shoots[j], name), ZonesOf(shoots[k], name))
  {
    if j == k {
    } else {
      ZonesChain(r, shoots, j, k - 1, name);
      assert r(ZonesOf(shoots[k - 1], name), ZonesOf(shoots[k], name));
    }
  }

  /** Whatever the rule for immutable zones: the zones of a pool that is there in every version change over a history
      only in ways the rule permits, step after step. */
  lemma PoolZonesChangeAsPermitted(
      env: Env, r: (seq<string>, seq<string>) -> bool, fields: seq<Fields>, shoots: seq<ShootSpec>, j: nat, k: nat,
      name: string)
    requires History(env, fields, shoots) && j <= k < |shoots|
    requires WV.Permits(env.enforce, r)
    requires forall m | j <= m <= k :: WV.FirstNamed(shoots[m].workers, name).Some?
    ensures r(ZonesOf(shoots[j], name), ZonesOf(shoots[k], name))
  {
    forall a, b | j <= a < b <= k && b == a + 1 ensures r(ZonesOf(shoots[a], name), ZonesOf(shoots[b], name)) {
      UpdateAdmittedIff(env, fields[b], shoots[a], shoots[b]);
      WV.ZonesArePermitted(env.enforce, r, shoots[a].workers, shoots[b].workers, name);
    }
    ZonesChain(r, shoots, j, k, name);
  }

  /** In particular: where immutability is always enforced, such a pool keeps its zones for good. */
  lemma PoolZonesNeverChange(
      env: Env, fields: seq<Fields>, shoots: seq<ShootSpec>, j: nat, k: nat, name: string)
    requires History(env, fields, shoots) && j <= k < |shoots|
    requires forall a, b :: env.enforce(a, b)
    requires forall m | j <= m <= k :: WV.FirstNamed(shoots[m].workers, name).Some?
    ensures ZonesOf(shoots[j], name) == ZonesOf(shoots[k], name)
  {
    var equal := (x: seq<string>, y: seq<string>) => x == y;
    PoolZonesChangeAsPermitted(env, equal, fields, shoots, j, k, name);
  }

  /** An explicit zone hosts the current region exactly if it did at the creation; for known regions, exactly when the
      current region lies in the same network zone as the one the shoot was created in. */
  lemma ZoneMatchesCurrentRegion(env: Env, fields: seq<Fields>, shoots: seq<ShootSpec>, k: nat)
    requires History(env, fields, shoots) && k < |shoots|
    ensures ZoneHosts(Zone(shoots[k]), shoots[k].region) <==> ZoneHosts(Zone(shoots[0]), shoots[k].region)
    ensures
      var then', now := IV.RegionNetworkZone(shoots[0].region), IV.RegionNetworkZone(shoots[k].region);
      Zone(shoots[0]) != "" && then'.Some? && now.Some? ==>
        (ZoneHosts(Zone(shoots[k]), shoots[k].region) <==> now == then')
  {
    EveryAdmittedShoot(env, fields, shoots, k);
  }

  /** Without a decoder, admission and a control plane configuration exclude each other: a configuration with
      content makes the validator crash wherever it would otherwise admit the shoot. */
  lemma ControlPlaneNeedsDecoder(env: Env, f: Fields, s: ShootSpec, old': Option<Object>)
    requires !f.decoder && s.controlPlane.Some?
    ensures !Validate(env, f, Shoot(s), old').Admitted?
    ensures
      (!s.controlPlane.value.Missing? && Validate(env, f, Shoot(s.(controlPlane := None)), old').Admitted?) ==>
        Validate(env, f, Shoot(s), old').Crashed?
  {
    ValidShootIsLawful(env, f, s);
    ValidShootIsLawful(env, f, s.(controlPlane := None));
  }
}
