/** Concrete inputs on which a promise of the code does not hold, one lemma each. */
module Counterexamples {
  import opened Wrappers
  import opened Cidr
  import opened Fingerprints
  import opened Account
  import opened InfrastructureApi
  import Infra = Infrastructure
  import Steps = InfrastructureSteps
  import Runs = InfrastructureRuns
  import IV = InfraValidation
  import WV = WorkerValidation
  import SA = ShootAdmission
  import Machines
  import PG = PlacementGroups
  import ClusterIds

  // ---------- one shoot in an empty account ----------

  function SomeDigest(n: byte): Digest {
    seq(16, _ => n)
  }

  /** A digest per public key, and one address, 10.0.0.0/32, behind every CIDR. */
  function SomeLibrary(): Library {
    Library(
      Hashes(
        text => if text == "a" then Some([1 as byte]) else Some([2 as byte]),
        blob => if blob == [1 as byte] then SomeDigest(1) else SomeDigest(2)),
      cidr => Some(Block(IPv4, 32, 10 * 0x100_0000)))
  }

  function SomeConfig(): InfraConfig {
    InfraConfig("", Some(Networks(Some(NetworkConfig("10.0.0.0/32", "eu-central")), "")))
  }

  function SomeSpec(publicKey: string): Infra.Spec {
    Infra.Spec("shoot", Decoded.Decoded(()), Decoded.Decoded(SomeConfig()),
      Decoded.Decoded("fsn1"), true, publicKey, [])
  }

  function Empty(): Infra.World {
    Infra.World(Resources(map[], map[], map[], 0), Missing)
  }

  lemma SecondField(publicKey: string, field: char)
    requires publicKey == "ssh " + [field] && field != ' '
    ensures |SplitN(publicKey, ' ', 3)| >= 2 && SplitN(publicKey, ' ', 3)[1] == [field]
  {
    var i := IndexOf(publicKey, ' ');
    assert publicKey[3] == ' ' && publicKey[0] == 's' && publicKey[1] == 's' && publicKey[2] == 'h';
    assert forall k | 0 <= k < i :: publicKey[k] in publicKey[..i];
    assert publicKey[4..] == [field];
    assert IndexOf([field], ' ') == 1;
  }

  /** The fingerprint of key a, and another one for key b. */
  lemma TwoFingerprints() returns (a: string, b: string)
    ensures Fingerprint(SomeLibrary().hashes, "ssh a") == Some(a)
    ensures Fingerprint(SomeLibrary().hashes, "ssh b") == Some(b)
    ensures a != b && ':' in a && ':' in b
  {
    SecondField("ssh a", 'a');
    SecondField("ssh b", 'b');
    var h := SomeLibrary().hashes;
    a, b := Fingerprint(h, "ssh a").value, Fingerprint(h, "ssh b").value;
    FingerprintShape(h, "ssh a");
    FingerprintShape(h, "ssh b");
    assert SomeDigest(1)[0] != SomeDigest(2)[0];
    if a == b {
      FingerprintDeterminesDigest(SomeDigest(1), SomeDigest(2));
    }
  }

  lemma SomeSpecIsFeasible(publicKey: string, status: Decoded<InfraStatus>)
    requires publicKey == "ssh a" || publicKey == "ssh b"
    requires !status.Undecodable?
    ensures Steps.Feasible(SomeLibrary(), SomeSpec(publicKey), status)
  {
    var a, b := TwoFingerprints();
  }

  /** When only the status update and the rollback are down, a feasible call in an empty account gets as far as that. */
  lemma FailsAtStatusUpdate(lib: Library, s: Infra.Spec, down: set<Call>)
    requires Steps.Feasible(lib, s, Missing) && EffectiveConfig(s.infraConfig.value.networks.value).Some?
    requires PatchStatus in down && down <= {PatchStatus, GetNetwork(Cleanup)}
    ensures Steps.ReachesKey(lib, s, down, Empty()) && Steps.Creates(lib, s, down, Empty())
    ensures Infra.Reconciled(lib, s, down, Empty()).outcome == Infra.Outcome.Failed
  {
    Steps.CreatesIff(lib, s, down, Empty());
    Steps.BodyNetworks(lib, s, down, Empty());
  }

  /** The status update fails and so does the rollback's lookup: the new network stays. */
  lemma LeakedNetwork()
    ensures
      var r := Infra.Reconciled(SomeLibrary(), SomeSpec("ssh a"), {PatchStatus, GetNetwork(Cleanup)}, Empty());
      r.outcome == Infra.Outcome.Failed && r.world.account.networks != map[]
  {
    var down := {PatchStatus, GetNetwork(Cleanup)};
    SomeSpecIsFeasible("ssh a", Missing);
    FailsAtStatusUpdate(SomeLibrary(), SomeSpec("ssh a"), down);
    Steps.FailedReconcileRestoresNetworks(SomeLibrary(), SomeSpec("ssh a"), down, Empty());
  }

  lemma FailureLeavesStray(
      lib: Library, shoot: Runs.Shoot, s: Infra.Spec, down: set<Call>, w: Infra.World, a: string)
    requires Runs.Untouched(shoot, w) && s.namespace == shoot.namespace
    requires Fingerprint(lib.hashes, s.publicKey) == Some(a) && a in shoot.mine && Steps.ReachesKey(lib, s, down, w)
    requires Infra.Reconciled(lib, s, down, w).outcome == Infra.Outcome.Failed
    ensures
      var r := Infra.Reconciled(lib, s, down, w).world;
      && r.status == Missing
      && Runs.Unique(shoot, r.account) && Runs.StatusMine(shoot, r) && a in Runs.Strays(shoot, r)
  {
    FingerprintShape(lib.hashes, s.publicKey);
    Runs.UntouchedIsUnique(shoot, w);
    Runs.ReconcileLeavesCurrent(lib, shoot, s, down, w);
    Runs.ApplyKeepsMine(lib, shoot, Runs.Reconcile(s, down), w);
    Steps.ReconcileKeys(lib, s, down, w);
  }

  lemma FirstCall(shoot: Runs.Shoot, a: string)
    requires Fingerprint(SomeLibrary().hashes, "ssh a") == Some(a)
    requires shoot.namespace == "shoot" && a in shoot.mine
    ensures
      var r := Infra.Reconciled(SomeLibrary(), SomeSpec("ssh a"), {PatchStatus}, Empty());
      && r.outcome == Infra.Outcome.Failed && r.world.status == Missing
      && Runs.Unique(shoot, r.world.account) && Runs.StatusMine(shoot, r.world) && a in Runs.Strays(shoot, r.world)
  {
    SomeSpecIsFeasible("ssh a", Missing);
    FailsAtStatusUpdate(SomeLibrary(), SomeSpec("ssh a"), {PatchStatus});
    FailureLeavesStray(SomeLibrary(), shoot, SomeSpec("ssh a"), {PatchStatus}, Empty(), a);
  }

  /** A stray stays a stray through a success with another key and a Delete. */
  lemma StrayStays(lib: Library, shoot: Runs.Shoot, s: Infra.Spec, w: Infra.World, a: string)
    requires Runs.Unique(shoot, w.account) && Runs.StatusMine(shoot, w) && a in Runs.Strays(shoot, w)
    requires Fingerprint(lib.hashes, s.publicKey).Some?
    requires Fingerprint(lib.hashes, s.publicKey).value in shoot.mine - {a}
    ensures
      !Steps.Absent(Infra.Deleted(s, {}, Infra.Reconciled(lib, s, {}, w).world).world.account.keys, a)
  {
    var next := Infra.Reconciled(lib, s, {}, w).world;
    Runs.ReconcileKeepsOtherStrays(lib, shoot, s, {}, w, a);
    Runs.DeleteKeepsStrays(shoot, s, {}, next, a);
    Runs.StrayIff(shoot, Infra.Deleted(s, {}, next).world, a);
  }

  lemma FeasibleThenDelete(lib: Library, s: Infra.Spec, w: Infra.World)
    requires Steps.Feasible(lib, s, w.status)
    ensures Infra.Reconciled(lib, s, {}, w).outcome == Infra.Done
    ensures Infra.Deleted(s, {}, Infra.Reconciled(lib, s, {}, w).world).outcome == Infra.Done
  {
    Steps.FaultFreeReconcile(lib, s, w);
  }

  lemma SecondCall(w: Infra.World)
    requires !w.status.Undecodable?
    ensures
      var r := Infra.Reconciled(SomeLibrary(), SomeSpec("ssh b"), {}, w);
      r.outcome == Infra.Done && Infra.Deleted(SomeSpec("ssh b"), {}, r.world).outcome == Infra.Done
  {
    SomeSpecIsFeasible("ssh b", w.status);
    FeasibleThenDelete(SomeLibrary(), SomeSpec("ssh b"), w);
  }

  /** A call for key a fails at the status update, the next one succeeds for key b, and a Delete succeeds: key a
      stays. */
  lemma LeakedKey()
    ensures
      var lib := SomeLibrary();
      var first := Infra.Reconciled(lib, SomeSpec("ssh a"), {PatchStatus}, Empty());
      var second := Infra.Reconciled(lib, SomeSpec("ssh b"), {}, first.world);
      var final := Infra.Deleted(SomeSpec("ssh b"), {}, second.world);
      && first.outcome == Infra.Outcome.Failed && second.outcome == Infra.Done && final.outcome == Infra.Done
      && !Steps.Absent(final.world.account.keys, Fingerprint(lib.hashes, "ssh a").value)
  {
    var a, b := TwoFingerprints();
    var shoot := Runs.Shoot("shoot", {a, b});
    FirstCall(shoot, a);
    var left := Infra.Reconciled(SomeLibrary(), SomeSpec("ssh a"), {PatchStatus}, Empty()).world;
    SecondCall(left);
    StrayStays(SomeLibrary(), shoot, SomeSpec("ssh b"), left, a);
  }

  /** Without a provider configuration in the cloud profile a Delete reports success and keeps the recorded network. */
  lemma SilentDelete()
    ensures
      var network := Network("shoot-workers", None, []);
      var w :=
        Infra.World(Resources(map[1 := network], map[], map[], 1), Decoded.Decoded(InfraStatus("", "", Some("1"))));
      Infra.Deleted(SomeSpec("ssh a").(cloudProfile := Missing), {}, w) == Infra.Step(w, Infra.Done)
  {
  }

  // ---------- admission ----------

  function SomeEnv(): SA.Env {
    SA.Env(SomeLibrary(), (n: seq<string>, o: seq<string>) => true)
  }

  function SomeShoot(region: string): SA.ShootSpec {
    SA.ShootSpec(region, Some("profile"), Some(SA.Networking(Some("10.0.0.0/32"), None, None)),
      Decoded.Decoded(SomeConfig()), None, [])
  }

  lemma SomeNetIsGood()
    ensures IV.GoodWorkerNet(Block(IPv4, 32, 10 * 0x100_0000))
  {
    var net: Net := Block(IPv4, 32, 10 * 0x100_0000);
    assert First(net) == 10 * 0x100_0000;
    IV.CanonicalMeaning(net);
    RangeNumbers();
    ContainsIffBetween(Private10(), Address(IPv4, First(net)));
    assert Contains(PrivateRanges()[0], Address(net.family, First(net)));
  }

  lemma SomeShootIsLawful(region: string)
    ensures SA.Lawful(SomeEnv(), SomeShoot(region))
  {
    SomeNetIsGood();
  }

  /** A shoot created in Falkenstein with zone eu-central moves to Ashburn: both steps are admitted, and the zone no
      longer hosts the region. */
  lemma ZoneLeftBehind()
    ensures
      var f := SA.Fields(Some({"profile"}), false);
      var shoots := [SomeShoot("fsn1"), SomeShoot("ash")];
      && SA.History(SomeEnv(), [f, f], shoots)
      && !SA.ZoneHosts(SA.Zone(shoots[1]), shoots[1].region)
  {
    var f := SA.Fields(Some({"profile"}), false);
    SomeShootIsLawful("fsn1");
    SomeShootIsLawful("ash");
    SA.CreationAdmittedIff(SomeEnv(), f, SomeShoot("fsn1"));
    SA.UpdateAdmittedIff(SomeEnv(), f, SomeShoot("fsn1"), SomeShoot("ash"));
  }

  /** The validator as it is built, with its client, crashes on a control plane configuration of a lawful shoot. */
  lemma ControlPlaneCrash()
    ensures
      var f := SA.Fields(Some({"profile"}), false);
      var s := SomeShoot("fsn1").(controlPlane := Some(Decoded.Decoded(())));
      SA.Validate(SomeEnv(), f, SA.Shoot(s), None) == SA.Crashed
  {
    var f := SA.Fields(Some({"profile"}), false);
    var s := SomeShoot("fsn1").(controlPlane := Some(Decoded.Decoded(())));
    SomeShootIsLawful("fsn1");
    SA.CreationAdmittedIff(SomeEnv(), f, SomeShoot("fsn1"));
    assert s.(controlPlane := None) == SomeShoot("fsn1");
    SA.ControlPlaneNeedsDecoder(SomeEnv(), f, s, None);
  }

  /** A spread pool of 2147483647 machines with a surge of one is accepted. */
  lemma WrappedSpreadSize()
    ensures
      WV.AllErrors([WV.Worker("p", 1, 0x7FFF_FFFF, Some(WV.Count(1)), ["z"], Decoded.Decoded(WV.Spread))])
      == WV.Errors([])
  {
    var w := WV.Worker("p", 1, 0x7FFF_FFFF, Some(WV.Count(1)), ["z"], Decoded.Decoded(WV.Spread));
    WV.AcceptedIffGood([w]);
    assert WV.GoodPool(w);
  }

  // ---------- workers ----------

  function SomePool(providerConfig: Decoded<string>): Machines.Pool {
    Machines.Pool("p", [], "cx22", 1, 1, None, None, providerConfig)
  }

  /** The group is recorded, the pool stops asking for it, a hook succeeds, the pool asks again, and the Worker is
      deleted: the group stays, although a current pool asks for it. */
  lemma DroppedGroup()
    ensures
      var a := Resources(map[], map[], map[1 := PlacementGroup("shoot-p")], 1);
      var hook := PG.Hook([SomePool(Missing)], {}, true);
      var later := PG.HookRun("shoot", [hook], PG.GroupState(a, map["shoot-p" := 1]));
      var now := [SomePool(Decoded.Decoded("spread"))];
      && "shoot-p" in PG.WantedNames("shoot", now)
      && 1 in later.account.groups - PG.Doomed("shoot", now, later.ids, true)
  {
    var a := Resources(map[], map[], map[1 := PlacementGroup("shoot-p")], 1);
    var g := PG.GroupState(a, map["shoot-p" := 1]);
    var hook := PG.Hook([SomePool(Missing)], {}, true);
    assert SomePool(Decoded.Decoded("spread")) in [SomePool(Decoded.Decoded("spread"))];
    assert Machines.GroupName("shoot", "p") == "shoot-p";
    assert PG.Ensured("shoot", [], {}, a) == PG.GroupStep(a, map[], true);
    assert PG.Hooked("shoot", hook, g) == PG.GroupState(a, map[]);
    assert PG.HookRun("shoot", [hook], g) == PG.GroupState(a, map[]);
  }

  /** Pool p in zone b-a and pool p-b in zone a get one deployment name. */
  lemma SharedDeploymentName()
    ensures
      Machines.DeploymentName("shoot", "p", "b-a") == Machines.DeploymentName("shoot", "p-b", "a") == "shoot-p-b-a"
  {
  }

  /** A 17 byte id cannot be shortened to 16 bytes. */
  lemma ShortIdPanics(hash: string -> ClusterIds.uint64)
    ensures ClusterIds.ShortenID(hash, "shoot-namespace-x", 16) == ClusterIds.SlicePanic
  {
    ClusterIds.ShortenIDExactly(hash, "shoot-namespace-x", 16);
    ClusterIds.HashDigits(hash("shoot-namespace-x"));
  }
}
