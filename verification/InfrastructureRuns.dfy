/** Whole runs: any number of Reconcile, Restore and Delete calls with failures anywhere, while other users of
    the account go on creating and deleting resources that are not the shoot's. */
module InfrastructureRuns {
  import opened Wrappers
  import opened Numerals
  import opened Fingerprints
  import opened Account
  import opened InfrastructureApi
  import opened Ensurers
  import Infra = Infrastructure
  import opened InfrastructureSteps

  /** A shoot, and the fingerprints of all the public keys it ever uses. */
  datatype Shoot = Shoot(namespace: string, mine: set<string>)

  datatype Op =
    | Reconcile(s: Infra.Spec, down: set<Call>)
    | Restore(s: Infra.Spec, down: set<Call>)
    | Delete(s: Infra.Spec, down: set<Call>)
    | Others(after: Resources)

  /** Other users leave the shoot's network name and key fingerprints alone, and ids are never reused. */
  ghost predicate OthersMay(shoot: Shoot, before: Resources, after: Resources) {
    && Sound(after) && before.lastId <= after.lastId
    && (forall id :: id in before.networks && before.networks[id].name == WorkersName(shoot.namespace) ==>
          id in after.networks && after.networks[id] == before.networks[id])
    && (forall id :: id in after.networks && after.networks[id].name == WorkersName(shoot.namespace) ==>
          id in before.networks && after.networks[id] == before.networks[id])
    && (forall id :: id in before.keys && before.keys[id].fingerprint in shoot.mine ==>
          id in after.keys && after.keys[id] == before.keys[id])
    && (forall id :: id in after.keys && after.keys[id].fingerprint in shoot.mine ==>
          id in before.keys && after.keys[id] == before.keys[id])
  }

  ghost function Apply(lib: Library, shoot: Shoot, op: Op, w: Infra.World): Infra.Step {
    match op
    case Reconcile(s, down) => Infra.Reconciled(lib, s, down, w)
    case Restore(s, down) => Infra.Reconciled(lib, s, down, w)
    case Delete(s, down) => Infra.Deleted(s, down, w)
    case Others(after) =>
      if OthersMay(shoot, w.account, after) then Infra.Step(w.(account := after), Infra.Done)
      else Infra.Step(w, Infra.Done)
  }

  ghost function Run(lib: Library, shoot: Shoot, ops: seq<Op>, w: Infra.World): Infra.World {
    if ops == [] then w else Run(lib, shoot, ops[1..], Apply(lib, shoot, ops[0], w).world)
  }

  /** Every operation belongs to the shoot. */
  ghost predicate OfShoot(lib: Library, shoot: Shoot, ops: seq<Op>) {
    forall op | op in ops && !op.Others? ::
      && op.s.namespace == shoot.namespace
      && (Fingerprint(lib.hashes, op.s.publicKey).Some? ==> Fingerprint(lib.hashes, op.s.publicKey).value in shoot.mine)
  }

  // ---------- names stay unique ----------

  /** What every operation keeps: sound ids, one network of the shoot's name, one key for each of its fingerprints. */
  ghost predicate Unique(shoot: Shoot, a: Resources) {
    && Sound(a)
    && AtMostOneNetwork(a, shoot.namespace)
    && (forall fp | fp in shoot.mine :: Same(KeysWith(a.keys, fp)))
  }

  /** Nothing of the shoot's was added. */
  ghost predicate ShootOnlyLoses(shoot: Shoot, before: Resources, after: Resources) {
    && (forall id :: id in after.networks && after.networks[id].name == WorkersName(shoot.namespace) ==>
          id in before.networks && after.networks[id] == before.networks[id])
    && (forall id :: id in after.keys && after.keys[id].fingerprint in shoot.mine ==>
          id in before.keys && after.keys[id] == before.keys[id])
  }

  lemma LosingKeepsUnique(shoot: Shoot, before: Resources, after: Resources)
    requires Unique(shoot, before) && Sound(after) && ShootOnlyLoses(shoot, before, after)
    ensures Unique(shoot, after)
  {
    forall id | id in NetworksNamed(after.networks, WorkersName(shoot.namespace))
      ensures id in NetworksNamed(before.networks, WorkersName(shoot.namespace))
    {
      assert id in after.networks;
    }
    forall fp | fp in shoot.mine ensures Same(KeysWith(after.keys, fp)) {
      forall id | id in KeysWith(after.keys, fp) ensures id in KeysWith(before.keys, fp) {
        assert id in after.keys;
      }
    }
  }

  lemma DeleteOnlyLoses(shoot: Shoot, s: Infra.Spec, down: set<Call>, w: Infra.World)
    requires Sound(w.account)
    ensures
      var after := Infra.Deleted(s, down, w).world.account;
      Sound(after) && ShootOnlyLoses(shoot, w.account, after)
  {
  }

  lemma ApplyKeepsUnique(lib: Library, shoot: Shoot, op: Op, w: Infra.World)
    requires Unique(shoot, w.account) && OfShoot(lib, shoot, [op])
    ensures Unique(shoot, Apply(lib, shoot, op, w).world.account)
  {
    assert op in [op];
    var after := Apply(lib, shoot, op, w).world.account;
    if op.Delete? {
      DeleteOnlyLoses(shoot, op.s, op.down, w);
      LosingKeepsUnique(shoot, w.account, after);
    } else if op.Others? {
      LosingKeepsUnique(shoot, w.account, after);
    } else {
      ReconcileSound(lib, op.s, op.down, w);
      ReconcileKeepsUnique(lib, op.s, op.down, w, "");
      forall fp | fp in shoot.mine ensures Same(KeysWith(after.keys, fp)) {
        ReconcileKeepsUnique(lib, op.s, op.down, w, fp);
      }
    }
  }

  /** Over every run, whatever fails in whichever call: the account never holds two networks of the shoot's
      name, nor two keys of one of its fingerprints. */
  lemma {:induction false} NamesStayUnique(lib: Library, shoot: Shoot, ops: seq<Op>, w: Infra.World)
    requires Unique(shoot, w.account) && OfShoot(lib, shoot, ops)
    ensures Unique(shoot, Run(lib, shoot, ops, w).account)
  {
    if ops == [] {
    } else {
      assert ops[0] in ops;
      ApplyKeepsUnique(lib, shoot, ops[0], w);
      NamesStayUnique(lib, shoot, ops[1..], Apply(lib, shoot, ops[0], w).world);
    }
  }

  // ---------- what belongs to others stays ----------

  function OtherKeys(shoot: Shoot, keys: map<int, SSHKey>): map<int, SSHKey> {
    map id | id in keys && keys[id].fingerprint !in shoot.mine :: keys[id]
  }

  /** The part of the account that is not the shoot's. */
  function OthersView(shoot: Shoot, a: Resources): (map<int, Network>, map<int, SSHKey>, map<int, PlacementGroup>) {
    (NetworksNotNamed(a.networks, WorkersName(shoot.namespace)), OtherKeys(shoot, a.keys), a.groups)
  }

  ghost predicate StatusMine(shoot: Shoot, w: Infra.World) {
    StatusFingerprint(w.status) == "" || StatusFingerprint(w.status) in shoot.mine
  }

  lemma ReconcileKeepsOtherNetworks(lib: Library, s: Infra.Spec, down: set<Call>, w: Infra.World)
    requires Sound(w.account)
    ensures NetworksNotNamed(Infra.Reconciled(lib, s, down, w).world.account.networks, WorkersName(s.namespace))
         == NetworksNotNamed(w.account.networks, WorkersName(s.namespace))
  {
    BodyNetworks(lib, s, down, w);
    var b := Infra.ReconcileBody(lib, s, down, w);
    if b.outcome != Infra.Done {
      FailedReconcileRestoresNetworks(lib, s, down, w);
    }
  }

  lemma KeyChangeKeepsOthers(
      shoot: Shoot, before: map<int, SSHKey>, after: map<int, SSHKey>, old': string, fp: string, created: int)
    requires KeyChange(before, after, old', fp, created) && fp in shoot.mine
    requires forall id | id in before :: before[id].fingerprint != ""
    requires old' == "" || old' in shoot.mine
    ensures OtherKeys(shoot, after) == OtherKeys(shoot, before)
  {
    forall id | id in OtherKeys(shoot, after)
      ensures id in OtherKeys(shoot, before) && OtherKeys(shoot, before)[id] == OtherKeys(shoot, after)[id]
    {
      assert id in after;
    }
    forall id | id in OtherKeys(shoot, before) ensures id in OtherKeys(shoot, after) {
      assert id in before;
    }
  }

  lemma NetworksDeletedKeepsOthers(
      a: Resources, namespace: string, id: Option<string>, phase: Phase, down: set<Call>)
    ensures
      var d := NetworksDeleted(a, namespace, id, phase, down).account;
      && d == a.(networks := d.networks) && d.networks.Keys <= a.networks.Keys
      && NetworksNotNamed(d.networks, WorkersName(namespace)) == NetworksNotNamed(a.networks, WorkersName(namespace))
  {
    var found := FindNetwork(a.networks, WorkersName(namespace));
    if found.Some? {
      assert found.value in NetworksNamed(a.networks, WorkersName(namespace));
    }
  }

  lemma KeyDeletedKeepsOthers(shoot: Shoot, a: Resources, fp: string, phase: Phase, down: set<Call>)
    requires fp == "" || fp in shoot.mine
    ensures
      var d := KeyDeleted(a, fp, phase, down).account;
      && d == a.(keys := d.keys) && OtherKeys(shoot, d.keys) == OtherKeys(shoot, a.keys)
      && (forall id | id in d.keys :: id in a.keys && d.keys[id] == a.keys[id])
  {
    var found := FindKey(a.keys, fp);
    if found.Some? {
      assert found.value in KeysWith(a.keys, fp);
    }
  }

  lemma DeleteKeepsOthers(shoot: Shoot, s: Infra.Spec, down: set<Call>, w: Infra.World)
    requires Sound(w.account) && StatusMine(shoot, w) && s.namespace == shoot.namespace
    ensures
      var w' := Infra.Deleted(s, down, w).world;
      && w'.status == w.status && Sound(w'.account)
      && OthersView(shoot, w'.account) == OthersView(shoot, w.account)
  {
    var id := if w.status.Decoded? then w.status.value.workersNetworkID else None;
    NetworksDeletedKeepsOthers(w.account, s.namespace, id, Teardown, down);
    var n := NetworksDeleted(w.account, s.namespace, id, Teardown, down);
    KeyDeletedKeepsOthers(shoot, n.account, StatusFingerprint(w.status), Teardown, down);
  }

  lemma ApplyKeepsOthers(lib: Library, shoot: Shoot, op: Op, w: Infra.World)
    requires Sound(w.account) && StatusMine(shoot, w) && OfShoot(lib, shoot, [op]) && !op.Others?
    ensures
      var w' := Apply(lib, shoot, op, w).world;
      StatusMine(shoot, w') && Sound(w'.account) && OthersView(shoot, w'.account) == OthersView(shoot, w.account)
  {
    assert op in [op];
    if op.Delete? {
      DeleteKeepsOthers(shoot, op.s, op.down, w);
    } else {
      ReconcileSound(lib, op.s, op.down, w);
      ReconcileKeys(lib, op.s, op.down, w);
      ReconcileKeepsOtherNetworks(lib, op.s, op.down, w);
      var fp := Fingerprint(lib.hashes, op.s.publicKey);
      if fp.Some? {
        KeyChangeKeepsOthers(shoot, w.account.keys, Apply(lib, shoot, op, w).world.account.keys,
          StatusFingerprint(w.status), fp.value, Infra.ReconcileBody(lib, op.s, op.down, w).ledger.sshKeyID);
      }
    }
  }

  /** Over every run the shoot's own operations leave every other network, every key of a fingerprint the shoot
      never used and every placement group exactly as they are. */
  lemma {:induction false} OthersAreUntouched(lib: Library, shoot: Shoot, ops: seq<Op>, w: Infra.World)
    requires Sound(w.account) && StatusMine(shoot, w) && OfShoot(lib, shoot, ops)
    requires forall op | op in ops :: !op.Others?
    ensures OthersView(shoot, Run(lib, shoot, ops, w).account) == OthersView(shoot, w.account)
    ensures Sound(Run(lib, shoot, ops, w).account) && StatusMine(shoot, Run(lib, shoot, ops, w))
  {
    if ops == [] {
    } else {
      assert ops[0] in ops;
      ApplyKeepsOthers(lib, shoot, ops[0], w);
      OthersAreUntouched(lib, shoot, ops[1..], Apply(lib, shoot, ops[0], w).world);
    }
  }

  // ---------- the keys a run leaves over ----------

  function ShootKeys(shoot: Shoot, a: Resources): set<int> {
    set id | id in a.keys && a.keys[id].fingerprint in shoot.mine
  }

  /** The fingerprints of the shoot's keys that the status does not name: no Delete will ever find them. */
  function Strays(shoot: Shoot, w: Infra.World): set<string> {
    set id | id in ShootKeys(shoot, w.account) && w.account.keys[id].fingerprint != StatusFingerprint(w.status) ::
      w.account.keys[id].fingerprint
  }

  /** One step of the account a maintainer would keep of the calls alone (whether one got past its key step depends on
      the keys only when creating or deleting a key is down): a call that fails after its key step
      leaves its fingerprint over, unless the status names it; a success clears its own; nothing else counts. */
  ghost function LeftAfter(lib: Library, shoot: Shoot, op: Op, w: Infra.World, left: set<string>): set<string> {
    if op.Delete? || op.Others? then left
    else match Fingerprint(lib.hashes, op.s.publicKey)
      case None => left
      case Some(fp) =>
        if Apply(lib, shoot, op, w).outcome == Infra.Done then left - {fp}
        else if ReachesKey(lib, op.s, op.down, w) && fp != StatusFingerprint(w.status) then left + {fp}
        else left
  }

  ghost function LeftOver(lib: Library, shoot: Shoot, ops: seq<Op>, w: Infra.World, left: set<string>): set<string> {
    if ops == [] then left
    else LeftOver(lib, shoot, ops[1..], Apply(lib, shoot, ops[0], w).world, LeftAfter(lib, shoot, ops[0], w, left))
  }

  lemma StrayIff(shoot: Shoot, w: Infra.World, fp: string)
    ensures fp in Strays(shoot, w) <==>
      fp in shoot.mine && fp != StatusFingerprint(w.status) && !Absent(w.account.keys, fp)
  {
    if id :| id in w.account.keys && w.account.keys[id].fingerprint == fp {
      assert fp in shoot.mine ==> id in ShootKeys(shoot, w.account);
    }
  }

  lemma SameKeysSameStrays(shoot: Shoot, w: Infra.World, w': Infra.World, fp: string)
    requires w'.status == w.status
    requires forall id | id in w.account.keys && w.account.keys[id].fingerprint == fp ::
      id in w'.account.keys && w'.account.keys[id] == w.account.keys[id]
    requires forall id | id in w'.account.keys && w'.account.keys[id].fingerprint == fp ::
      id in w.account.keys && w'.account.keys[id] == w.account.keys[id]
    ensures fp in Strays(shoot, w') <==> fp in Strays(shoot, w)
  {
    StrayIff(shoot, w, fp);
    StrayIff(shoot, w', fp);
  }

  lemma DeleteKeepsOtherKeys(s: Infra.Spec, down: set<Call>, w: Infra.World, id: int)
    requires id in w.account.keys ==> w.account.keys[id].fingerprint != StatusFingerprint(w.status)
    ensures id in Infra.Deleted(s, down, w).world.account.keys <==> id in w.account.keys
  {
    var found := FindKey(w.account.keys, StatusFingerprint(w.status));
    assert found.Some? ==> found.value in KeysWith(w.account.keys, StatusFingerprint(w.status));
  }

  lemma DeleteKeepsStrays(shoot: Shoot, s: Infra.Spec, down: set<Call>, w: Infra.World, fp: string)
    ensures fp in Strays(shoot, Infra.Deleted(s, down, w).world) <==> fp in Strays(shoot, w)
  {
    var w' := Infra.Deleted(s, down, w).world;
    if fp != StatusFingerprint(w.status) {
      forall id | id in w.account.keys && w.account.keys[id].fingerprint == fp
        ensures id in w'.account.keys && w'.account.keys[id] == w.account.keys[id]
      {
        DeleteKeepsOtherKeys(s, down, w, id);
      }
      SameKeysSameStrays(shoot, w, w', fp);
    }
  }

  /** Other fingerprints than the current one: only the status's key may go. */
  lemma ReconcileKeepsOtherStrays(lib: Library, shoot: Shoot, s: Infra.Spec, down: set<Call>, w: Infra.World, g: string)
    requires Unique(shoot, w.account) && StatusMine(shoot, w)
    requires Fingerprint(lib.hashes, s.publicKey).Some? && Fingerprint(lib.hashes, s.publicKey).value in shoot.mine
    requires g != Fingerprint(lib.hashes, s.publicKey).value
    ensures g in Strays(shoot, Infra.Reconciled(lib, s, down, w).world) <==> g in Strays(shoot, w)
  {
    ReconcileKeys(lib, s, down, w);
    var w' := Infra.Reconciled(lib, s, down, w).world;
    StrayIff(shoot, w, g);
    StrayIff(shoot, w', g);
    if id :| id in w.account.keys && w.account.keys[id].fingerprint == g && g != StatusFingerprint(w.status) {
      assert id in w'.account.keys;
    }
    if id :| id in w'.account.keys && w'.account.keys[id].fingerprint == g {
      assert id in w.account.keys;
    }
  }

  /** And the current one: a stray exactly when a call that did not succeed got past its key step, or it was one. */
  lemma ReconcileLeavesCurrent(lib: Library, shoot: Shoot, s: Infra.Spec, down: set<Call>, w: Infra.World)
    requires Unique(shoot, w.account)
    requires Fingerprint(lib.hashes, s.publicKey).Some? && Fingerprint(lib.hashes, s.publicKey).value in shoot.mine
    ensures
      var fp := Fingerprint(lib.hashes, s.publicKey).value;
      var r := Infra.Reconciled(lib, s, down, w);
      fp in Strays(shoot, r.world) <==>
        && r.outcome != Infra.Done && fp != StatusFingerprint(w.status)
        && (ReachesKey(lib, s, down, w) || fp in Strays(shoot, w))
  {
    var fp := Fingerprint(lib.hashes, s.publicKey).value;
    var w' := Infra.Reconciled(lib, s, down, w).world;
    ReconcileKeys(lib, s, down, w);
    ReachedKeyIsThere(lib, s, down, w);
    StrayIff(shoot, w, fp);
    StrayIff(shoot, w', fp);
    if id :| id in w.account.keys && w.account.keys[id].fingerprint == fp && fp != StatusFingerprint(w.status) {
      assert id in w'.account.keys;
    }
    if id :| id in w'.account.keys && w'.account.keys[id].fingerprint == fp && !ReachesKey(lib, s, down, w) {
      assert id in w.account.keys;
    }
  }

  lemma ReconcileStrays(lib: Library, shoot: Shoot, s: Infra.Spec, down: set<Call>, w: Infra.World, g: string)
    requires Unique(shoot, w.account) && StatusMine(shoot, w) && OfShoot(lib, shoot, [Reconcile(s, down)])
    ensures
      g in Strays(shoot, Infra.Reconciled(lib, s, down, w).world) <==>
      g in LeftAfter(lib, shoot, Reconcile(s, down), w, Strays(shoot, w))
  {
    assert Reconcile(s, down) in [Reconcile(s, down)];
    match Fingerprint(lib.hashes, s.publicKey) {
      case None =>
        ReconcileKeys(lib, s, down, w);
      case Some(fp) =>
        if g == fp {
          ReconcileLeavesCurrent(lib, shoot, s, down, w);
          StrayIff(shoot, w, g);
        } else {
          ReconcileKeepsOtherStrays(lib, shoot, s, down, w, g);
        }
    }
  }

  lemma StraysAfter(lib: Library, shoot: Shoot, op: Op, w: Infra.World)
    requires Unique(shoot, w.account) && StatusMine(shoot, w) && OfShoot(lib, shoot, [op])
    ensures Strays(shoot, Apply(lib, shoot, op, w).world) == LeftAfter(lib, shoot, op, w, Strays(shoot, w))
  {
    assert op in [op];
    var w' := Apply(lib, shoot, op, w).world;
    forall g ensures g in Strays(shoot, w') <==> g in LeftAfter(lib, shoot, op, w, Strays(shoot, w)) {
      if op.Delete? {
        DeleteKeepsStrays(shoot, op.s, op.down, w, g);
      } else if op.Others? {
        StrayIff(shoot, w, g);
        StrayIff(shoot, w', g);
        if g in shoot.mine {
          SameKeysSameStrays(shoot, w, w', g);
        }
      } else {
        ReconcileStrays(lib, shoot, op.s, op.down, w, g);
      }
    }
  }

  lemma ApplyKeepsMine(lib: Library, shoot: Shoot, op: Op, w: Infra.World)
    requires Unique(shoot, w.account) && StatusMine(shoot, w) && OfShoot(lib, shoot, [op])
    ensures Unique(shoot, Apply(lib, shoot, op, w).world.account) && StatusMine(shoot, Apply(lib, shoot, op, w).world)
  {
    ApplyKeepsUnique(lib, shoot, op, w);
    if !op.Others? {
      ApplyKeepsOthers(lib, shoot, op, w);
    }
  }

  /** Over every run, Deletes and other users included, and from every account the invariant holds in: the strays are
      exactly what the failed and the successful calls leave over. */
  lemma {:induction false} StraysAreLeftOver(lib: Library, shoot: Shoot, ops: seq<Op>, w: Infra.World)
    requires Unique(shoot, w.account) && StatusMine(shoot, w) && OfShoot(lib, shoot, ops)
    ensures Strays(shoot, Run(lib, shoot, ops, w)) == LeftOver(lib, shoot, ops, w, Strays(shoot, w))
    ensures Unique(shoot, Run(lib, shoot, ops, w).account) && StatusMine(shoot, Run(lib, shoot, ops, w))
  {
    if ops == [] {
    } else {
      assert ops[0] in ops;
      StraysAfter(lib, shoot, ops[0], w);
      ApplyKeepsMine(lib, shoot, ops[0], w);
      StraysAreLeftOver(lib, shoot, ops[1..], Apply(lib, shoot, ops[0], w).world);
    }
  }

  /** Exactly one key of the shoot is in the account, and it has this fingerprint. */
  ghost predicate OnlyKey(shoot: Shoot, a: Resources, fingerprint: string) {
    exists id | id in a.keys :: ShootKeys(shoot, a) == {id} && a.keys[id].fingerprint == fingerprint
  }

  lemma OneKeyIffNoStrays(shoot: Shoot, w: Infra.World)
    requires Unique(shoot, w.account) && StatusFingerprint(w.status) in shoot.mine
    requires !Absent(w.account.keys, StatusFingerprint(w.status))
    ensures OnlyKey(shoot, w.account, StatusFingerprint(w.status)) <==> Strays(shoot, w) == {}
  {
    var fp := StatusFingerprint(w.status);
    var id :| id in w.account.keys && w.account.keys[id].fingerprint == fp;
    assert id in ShootKeys(shoot, w.account) && id in KeysWith(w.account.keys, fp);
    if Strays(shoot, w) == {} {
      forall j | j in ShootKeys(shoot, w.account) ensures j == id {
        assert w.account.keys[j].fingerprint in Strays(shoot, w) || j in KeysWith(w.account.keys, fp);
      }
      assert ShootKeys(shoot, w.account) == {id};
    }
    if OnlyKey(shoot, w.account, fp) {
      forall g ensures g !in Strays(shoot, w) {}
    }
  }

  /** After a success at the end of any run: the status names the current key, which is there; and it is the only key of
      the shoot exactly when the run before left over no other fingerprint. */
  lemma ExactlyOneKey(lib: Library, shoot: Shoot, ops: seq<Op>, last: Op, w: Infra.World)
    requires Unique(shoot, w.account) && StatusMine(shoot, w)
    requires OfShoot(lib, shoot, ops) && OfShoot(lib, shoot, [last]) && (last.Reconcile? || last.Restore?)
    requires Apply(lib, shoot, last, Run(lib, shoot, ops, w)).outcome == Infra.Done
    ensures
      var after := Apply(lib, shoot, last, Run(lib, shoot, ops, w)).world;
      var fp := StatusFingerprint(after.status);
      && Fingerprint(lib.hashes, last.s.publicKey) == Some(fp)
      && !Absent(after.account.keys, fp)
      && (OnlyKey(shoot, after.account, fp) <==> LeftOver(lib, shoot, ops, w, Strays(shoot, w)) <= {fp})
  {
    StraysAreLeftOver(lib, shoot, ops, w);
    var before := Run(lib, shoot, ops, w);
    assert last in [last];
    StraysAfter(lib, shoot, last, before);
    ApplyKeepsMine(lib, shoot, last, before);
    ReconcileKeys(lib, last.s, last.down, before);
    OneKeyIffNoStrays(shoot, Apply(lib, shoot, last, before).world);
  }

  // ---------- retries ----------

  lemma {:induction false} RunsKeepDecodable(lib: Library, shoot: Shoot, ops: seq<Op>, w: Infra.World)
    ensures Run(lib, shoot, ops, w).status.Undecodable? <==> w.status.Undecodable?
  {
    if ops == [] {
    } else {
      if ops[0].Reconcile? || ops[0].Restore? {
        ReconcileKeepsDecodable(lib, ops[0].s, ops[0].down, w);
      }
      RunsKeepDecodable(lib, shoot, ops[1..], Apply(lib, shoot, ops[0], w).world);
    }
  }

  /** Whatever failed in the run before, whatever others did, and whatever is left in the account: a Reconcile without
      faults succeeds exactly if it is feasible, which the run has no influence on. */
  lemma RunsCanBeRetried(lib: Library, shoot: Shoot, ops: seq<Op>, s: Infra.Spec, w: Infra.World)
    ensures
      Infra.Reconciled(lib, s, {}, Run(lib, shoot, ops, w)).outcome == Infra.Done <==> Feasible(lib, s, w.status)
  {
    RunsKeepDecodable(lib, shoot, ops, w);
    FaultFreeReconcile(lib, s, Run(lib, shoot, ops, w));
  }

  // ---------- patience suffices ----------

  /** The public key a run is still waiting to see succeed: none, or the key of the last call if it failed. */
  ghost function Next(lib: Library, shoot: Shoot, op: Op, w: Infra.World, waiting: Option<string>): Option<string> {
    if op.Delete? || op.Others? then waiting
    else if Apply(lib, shoot, op, w).outcome == Infra.Done then None
    else Some(op.s.publicKey)
  }

  ghost function Waiting(
      lib: Library, shoot: Shoot, ops: seq<Op>, w: Infra.World, waiting: Option<string>): Option<string>
  {
    if ops == [] then waiting
    else Waiting(lib, shoot, ops[1..], Apply(lib, shoot, ops[0], w).world, Next(lib, shoot, ops[0], w, waiting))
  }

  /** The owner of the shoot changes the public key only after a Reconcile or Restore has succeeded. */
  ghost predicate Patient(lib: Library, shoot: Shoot, ops: seq<Op>, w: Infra.World, waiting: Option<string>) {
    ops != [] ==>
      && ((ops[0].Reconcile? || ops[0].Restore?) && waiting.Some? ==> ops[0].s.publicKey == waiting.value)
      && Patient(lib, shoot, ops[1..], Apply(lib, shoot, ops[0], w).world, Next(lib, shoot, ops[0], w, waiting))
  }

  function FingerprintsOf(lib: Library, publicKey: Option<string>): set<string> {
    if publicKey.None? || Fingerprint(lib.hashes, publicKey.value).None? then {}
    else {Fingerprint(lib.hashes, publicKey.value).value}
  }

  /** A patient run leaves over at most the key it is waiting for. */
  lemma {:induction false} PatienceLeavesNothing(
      lib: Library, shoot: Shoot, ops: seq<Op>, w: Infra.World, waiting: Option<string>, left: set<string>)
    requires Patient(lib, shoot, ops, w, waiting) && left <= FingerprintsOf(lib, waiting)
    ensures LeftOver(lib, shoot, ops, w, left) <= FingerprintsOf(lib, Waiting(lib, shoot, ops, w, waiting))
  {
    if ops == [] {
    } else {
      PatienceLeavesNothing(lib, shoot, ops[1..], Apply(lib, shoot, ops[0], w).world,
        Next(lib, shoot, ops[0], w, waiting), LeftAfter(lib, shoot, ops[0], w, left));
    }
  }

  /** A shoot that has nothing in the account and no status yet. */
  ghost predicate Untouched(shoot: Shoot, w: Infra.World) {
    && Sound(w.account) && w.status == Missing
    && NetworksNamed(w.account.networks, WorkersName(shoot.namespace)) == {}
    && ShootKeys(shoot, w.account) == {}
  }

  lemma UntouchedIsUnique(shoot: Shoot, w: Infra.World)
    requires Untouched(shoot, w)
    ensures Unique(shoot, w.account) && StatusMine(shoot, w) && Strays(shoot, w) == {}
  {
    forall fp | fp in shoot.mine ensures KeysWith(w.account.keys, fp) == {} {
      assert forall id | id in KeysWith(w.account.keys, fp) :: id in ShootKeys(shoot, w.account);
    }
  }

  /** So a shoot whose owner is patient from the start has exactly one key after every success. */
  lemma PatientRunsHaveOneKey(lib: Library, shoot: Shoot, ops: seq<Op>, last: Op, w: Infra.World)
    requires Untouched(shoot, w) && OfShoot(lib, shoot, ops) && OfShoot(lib, shoot, [last])
    requires Patient(lib, shoot, ops, w, None) && (last.Reconcile? || last.Restore?)
    requires
      var waiting := Waiting(lib, shoot, ops, w, None);
      waiting.Some? ==> last.s.publicKey == waiting.value
    requires Apply(lib, shoot, last, Run(lib, shoot, ops, w)).outcome == Infra.Done
    ensures
      var after := Apply(lib, shoot, last, Run(lib, shoot, ops, w)).world;
      OnlyKey(shoot, after.account, StatusFingerprint(after.status))
  {
    UntouchedIsUnique(shoot, w);
    PatienceLeavesNothing(lib, shoot, ops, w, None, {});
    ExactlyOneKey(lib, shoot, ops, last, w);
  }

  // ---------- a whole life ----------

  ghost predicate ShootGone(shoot: Shoot, a: Resources) {
    && (forall id | id in a.networks :: a.networks[id].name != WorkersName(shoot.namespace))
    && (forall id | id in a.keys :: a.keys[id].fingerprint !in shoot.mine)
  }

  lemma GoneMeansAllOthers(shoot: Shoot, a: Resources)
    requires ShootGone(shoot, a)
    ensures OthersView(shoot, a) == (a.networks, a.keys, a.groups)
  {
    var networks := NetworksNotNamed(a.networks, WorkersName(shoot.namespace));
    forall id | id in a.networks ensures id in networks && networks[id] == a.networks[id] {}
    assert networks == a.networks;
    var keys := OtherKeys(shoot, a.keys);
    forall id | id in a.keys ensures id in keys && keys[id] == a.keys[id] {}
    assert keys == a.keys;
  }

  lemma UntouchedIsGone(shoot: Shoot, w: Infra.World)
    requires Untouched(shoot, w)
    ensures ShootGone(shoot, w.account)
  {
    forall id | id in w.account.networks ensures w.account.networks[id].name != WorkersName(shoot.namespace) {
      assert id !in NetworksNamed(w.account.networks, WorkersName(shoot.namespace));
    }
    forall id | id in w.account.keys ensures w.account.keys[id].fingerprint !in shoot.mine {
      assert id !in ShootKeys(shoot, w.account);
    }
  }

  /** The shoot's keys are strays and the one the status names. */
  lemma NoKeysIff(shoot: Shoot, w: Infra.World)
    ensures
      ShootKeys(shoot, w.account) == {} <==>
        && Strays(shoot, w) == {}
        && (StatusFingerprint(w.status) in shoot.mine ==> Absent(w.account.keys, StatusFingerprint(w.status)))
  {
    var fp := StatusFingerprint(w.status);
    if ShootKeys(shoot, w.account) == {} {
      forall id | id in w.account.keys ensures w.account.keys[id].fingerprint !in shoot.mine {
        assert id !in ShootKeys(shoot, w.account);
      }
    } else if Strays(shoot, w) == {} {
      forall id | id in ShootKeys(shoot, w.account) ensures w.account.keys[id].fingerprint == fp {
        assert w.account.keys[id].fingerprint !in Strays(shoot, w);
      }
      if Absent(w.account.keys, fp) {
        forall id ensures id !in ShootKeys(shoot, w.account) {}
      }
    }
  }

  lemma DeleteRemovesNamedKey(s: Infra.Spec, down: set<Call>, w: Infra.World)
    requires Infra.Deleted(s, down, w).outcome == Infra.Done
    requires StatusFingerprint(w.status) != "" && Same(KeysWith(w.account.keys, StatusFingerprint(w.status)))
    ensures
      Absent(Infra.Deleted(s, down, w).world.account.keys, StatusFingerprint(w.status)) <==>
        Configured(s) || Absent(w.account.keys, StatusFingerprint(w.status))
  {
    SuccessfulDelete(s, down, w);
    RemoveOnlyKey(w.account.keys, StatusFingerprint(w.status));
  }

  /** After a successful Delete only strays are left of the shoot's keys, and the key the status names if the Delete
      did not act. */
  lemma DeleteRemovesKeys(shoot: Shoot, s: Infra.Spec, down: set<Call>, w: Infra.World)
    requires Unique(shoot, w.account) && StatusMine(shoot, w)
    requires Infra.Deleted(s, down, w).outcome == Infra.Done
    ensures
      ShootKeys(shoot, Infra.Deleted(s, down, w).world.account) == {} <==>
        && Strays(shoot, w) == {}
        && (Configured(s) || StatusFingerprint(w.status) == ""
            || Absent(w.account.keys, StatusFingerprint(w.status)))
  {
    var after := Infra.Deleted(s, down, w).world;
    var fp := StatusFingerprint(w.status);
    NoKeysIff(shoot, after);
    forall g ensures g in Strays(shoot, after) <==> g in Strays(shoot, w) {
      DeleteKeepsStrays(shoot, s, down, w, g);
    }
    assert Strays(shoot, after) == Strays(shoot, w);
    if fp != "" {
      DeleteRemovesNamedKey(s, down, w);
    } else {
      DeleteOnlyLoses(shoot, s, down, w);
    }
  }

  lemma GoneIff(shoot: Shoot, a: Resources)
    ensures ShootGone(shoot, a) <==>
      FindNetwork(a.networks, WorkersName(shoot.namespace)).None? && ShootKeys(shoot, a) == {}
  {
    var name := WorkersName(shoot.namespace);
    if ShootGone(shoot, a) {
      forall id ensures id !in NetworksNamed(a.networks, name) && id !in ShootKeys(shoot, a) {}
    } else if id :| id in a.networks && a.networks[id].name == name {
      assert id in NetworksNamed(a.networks, name);
    } else {
      var id :| id in a.keys && a.keys[id].fingerprint in shoot.mine;
      assert id in ShootKeys(shoot, a);
    }
  }

  /** What a successful Delete has to find so that nothing of the shoot is left: no key left over; a status and
      configurations it can act on, or no key and no network to act on; and a recorded network, if there is one. */
  predicate EndsClean(shoot: Shoot, s: Infra.Spec, before: Infra.World, left: set<string>) {
    var acts := Configured(s) && before.status.Decoded?;
    var fp := StatusFingerprint(before.status);
    && left == {}
    && (acts || fp == "" || FindKey(before.account.keys, fp).None?)
    && (FindNetwork(before.account.networks, WorkersName(shoot.namespace)).None?
        || (acts && before.status.value.workersNetworkID.Some? && before.status.value.workersNetworkID.value != ""))
  }

  lemma GoneAfterDelete(shoot: Shoot, s: Infra.Spec, down: set<Call>, w: Infra.World)
    requires Unique(shoot, w.account) && StatusMine(shoot, w) && s.namespace == shoot.namespace
    requires Infra.Deleted(s, down, w).outcome == Infra.Done
    ensures ShootGone(shoot, Infra.Deleted(s, down, w).world.account) <==> EndsClean(shoot, s, w, Strays(shoot, w))
  {
    GoneIff(shoot, Infra.Deleted(s, down, w).world.account);
    DeleteFreesNetwork(s, down, w);
    DeleteRemovesKeys(shoot, s, down, w);
    PresentIsFound(w.account.keys, StatusFingerprint(w.status));
  }

  /** Any run, with whatever succeeded or failed in it, and then a successful Delete: nothing of the shoot is left
      exactly under these conditions. */
  lemma DeletedAfterRun(lib: Library, shoot: Shoot, ops: seq<Op>, final: Op, w: Infra.World)
    requires Unique(shoot, w.account) && StatusMine(shoot, w)
    requires OfShoot(lib, shoot, ops) && OfShoot(lib, shoot, [final]) && final.Delete?
    requires Apply(lib, shoot, final, Run(lib, shoot, ops, w)).outcome == Infra.Done
    ensures
      var before := Run(lib, shoot, ops, w);
      ShootGone(shoot, Apply(lib, shoot, final, before).world.account) <==>
        EndsClean(shoot, final.s, before, LeftOver(lib, shoot, ops, w, Strays(shoot, w)))
  {
    assert final in [final];
    StraysAreLeftOver(lib, shoot, ops, w);
    GoneAfterDelete(shoot, final.s, final.down, Run(lib, shoot, ops, w));
  }

  /** When the last call before the Delete was a success, these conditions come down to the specifications: both
      configurations are there, no other key than the current one was left over, and the success asked for a network,
      unless there was none. */
  lemma DeletedAfterSuccess(lib: Library, shoot: Shoot, ops: seq<Op>, last: Op, final: Op, w: Infra.World)
    requires Unique(shoot, w.account) && StatusMine(shoot, w)
    requires OfShoot(lib, shoot, ops) && OfShoot(lib, shoot, [last]) && OfShoot(lib, shoot, [final])
    requires (last.Reconcile? || last.Restore?) && final.Delete?
    requires Apply(lib, shoot, last, Run(lib, shoot, ops, w)).outcome == Infra.Done
    requires Apply(lib, shoot, final, Apply(lib, shoot, last, Run(lib, shoot, ops, w)).world).outcome == Infra.Done
    ensures last.s.infraConfig.Decoded? && last.s.infraConfig.value.networks.Some?
    ensures
      var before := Run(lib, shoot, ops, w);
      ShootGone(shoot, Apply(lib, shoot, final, Apply(lib, shoot, last, before).world).world.account) <==>
        && Configured(final.s)
        && LeftOver(lib, shoot, ops, w, Strays(shoot, w)) <= FingerprintsOf(lib, Some(last.s.publicKey))
        && (EffectiveConfig(last.s.infraConfig.value.networks.value).Some?
            || FindNetwork(before.account.networks, WorkersName(shoot.namespace)).None?)
  {
    var before := Run(lib, shoot, ops, w);
    var r := Apply(lib, shoot, last, before).world;
    assert last in [last] && final in [final];
    StraysAreLeftOver(lib, shoot, ops, w);
    StraysAfter(lib, shoot, last, before);
    ApplyKeepsMine(lib, shoot, last, before);
    ReconcileKeys(lib, last.s, last.down, before);
    FingerprintShape(lib.hashes, last.s.publicKey);
    SuccessRecordsNetwork(lib, last.s, last.down, before);
    if r.status.value.workersNetworkID.Some? {
      NoColon(FindNetwork(r.account.networks, WorkersName(shoot.namespace)).value);
    }
    PresentIsFound(r.account.keys, StatusFingerprint(r.status));
    GoneAfterDelete(shoot, final.s, final.down, r);
  }

  /** From a shoot with nothing in the account, through any run of its own operations with failures anywhere and any
      number of key rotations and Deletes, to a successful Delete: networks, keys and placement groups are those from
      before the shoot exactly under the conditions of DeletedAfterRun. */
  lemma LifecycleLeavesNothing(lib: Library, shoot: Shoot, ops: seq<Op>, final: Op, w: Infra.World)
    requires Untouched(shoot, w) && forall op | op in ops :: !op.Others?
    requires OfShoot(lib, shoot, ops) && OfShoot(lib, shoot, [final]) && final.Delete?
    requires Apply(lib, shoot, final, Run(lib, shoot, ops, w)).outcome == Infra.Done
    ensures
      var before := Run(lib, shoot, ops, w);
      var end := Apply(lib, shoot, final, before).world.account;
      && end.groups == w.account.groups
      && (end.networks == w.account.networks && end.keys == w.account.keys <==>
            EndsClean(shoot, final.s, before, LeftOver(lib, shoot, ops, w, {})))
  {
    UntouchedIsUnique(shoot, w);
    UntouchedIsGone(shoot, w);
    var before := Run(lib, shoot, ops, w);
    var end := Apply(lib, shoot, final, before).world.account;
    DeletedAfterRun(lib, shoot, ops, final, w);
    OthersAreUntouched(lib, shoot, ops, w);
    ApplyKeepsOthers(lib, shoot, final, before);
    GoneMeansAllOthers(shoot, w.account);
    if ShootGone(shoot, end) {
      GoneMeansAllOthers(shoot, end);
    }
  }
}
