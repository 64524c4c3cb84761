/** What a single Reconcile or Delete keeps, restores and removes, whatever fails on the way. */
module InfrastructureSteps {
  import opened Wrappers
  import opened Numerals
  import opened Fingerprints
  import opened Account
  import opened InfrastructureApi
  import opened Ensurers
  import opened Infrastructure

  ghost predicate Same(ids: set<int>) {
    forall i, j | i in ids && j in ids :: i == j
  }

  /** No two networks carry the name. */
  ghost predicate AtMostOneNetwork(a: Resources, namespace: string) {
    Same(NetworksNamed(a.networks, WorkersName(namespace)))
  }

  /** Every stored key has a fingerprint of the colon separated form. */
  ghost predicate ColonKeys(a: Resources) {
    forall id | id in a.keys :: ':' in a.keys[id].fingerprint
  }

  ghost predicate Sound(a: Resources) {
    Valid(a) && ColonKeys(a)
  }

  /** The calls the rollback of a network depends on. */
  const NETWORK_CLEANUP: set<Call> := {ReadSecret(Cleanup), GetNetwork(Cleanup), DeleteNetwork(Cleanup)}

  // ---------- networks ----------

  lemma KeyDeletedFrame(a: Resources, fingerprint: string, phase: Phase, down: set<Call>)
    requires Sound(a)
    ensures
      var d := KeyDeleted(a, fingerprint, phase, down).account;
      d == a.(keys := d.keys) && Sound(d)
  {
  }

  lemma KeyPresentFrame(a: Resources, fingerprint: string, down: set<Call>)
    requires Sound(a) && ':' in fingerprint
    ensures
      var k := KeyPresent(a, fingerprint, down);
      && k.account == a.(keys := k.account.keys, lastId := k.account.lastId)
      && Sound(k.account) && k.account.lastId >= a.lastId
      && (k.created.Some? ==> k.created.value == k.account.lastId > 0 && k.fingerprint.Some?)
      && (k.fingerprint.Some? ==> k.fingerprint.value == fingerprint)
  {
  }

  lemma KeysKeepNetworks(lib: Library, publicKey: string, status: Decoded<InfraStatus>, down: set<Call>, a: Resources)
    requires Sound(a)
    ensures
      var k := KeyEnsured(lib, publicKey, status, down, a);
      && k.account.networks == a.networks && k.account.groups == a.groups
      && Sound(k.account) && k.account.lastId >= a.lastId
      && (k.created.Some? ==> k.created.value == k.account.lastId > 0 && k.fingerprint.Some?)
      && (k.fingerprint.Some? ==> k.fingerprint == Fingerprint(lib.hashes, publicKey))
  {
    var fp := Fingerprint(lib.hashes, publicKey);
    if fp.Some? {
      FingerprintShape(lib.hashes, publicKey);
      var old' := StatusFingerprint(status);
      KeyDeletedFrame(a, old', Rotate, down);
      KeyPresentFrame(a, fp.value, down);
      KeyPresentFrame(KeyDeleted(a, old', Rotate, down).account, fp.value, down);
    }
  }

  /** The rollback never finds a key: the ledger's decimal id is no fingerprint. */
  lemma CleanupKeepsKeys(s: Spec, down: set<Call>, ledger: Ledger, a: Resources)
    requires ColonKeys(a)
    ensures AfterCleanup(s, down, ledger, a).keys == a.keys
    ensures ledger.networkID == 0 ==> AfterCleanup(s, down, ledger, a) == a
  {
    NoColon(ledger.networkID);
    NoColon(ledger.sshKeyID);
  }

  /** The network this call created, according to its ledger, is the only change to the networks. */
  ghost predicate CreatedOnly(before: map<int, Network>, after: map<int, Network>, name: string, id: int) {
    && id !in before && id in after && after[id].name == name
    && after == before[id := after[id]]
    && NetworksNamed(before, name) == {}
  }

  lemma NetworkStepNetworks(
      lib: Library, namespace: string, cpZone: string, networks: Option<Networks>, locations: seq<Location>,
      down: set<Call>, a: Resources)
    requires Sound(a)
    ensures
      var n := NetworkEnsured(lib, namespace, cpZone, networks, locations, down, a);
      && n.account.groups == a.groups && n.account.keys == a.keys && Sound(n.account) && n.account.lastId >= a.lastId
      && (n.created.None? ==> n.account == a)
      && (n.created.Some? ==>
            && n.created.value > 0 && n.result == NetworkID(n.created.value)
            && CreatedOnly(a.networks, n.account.networks, WorkersName(namespace), n.created.value))
  {
  }

  lemma BodyNetworks(lib: Library, s: Spec, down: set<Call>, w: World)
    requires Sound(w.account)
    ensures
      var b := ReconcileBody(lib, s, down, w);
      && b.world.account.groups == w.account.groups && Sound(b.world.account)
      && b.world.account.lastId >= w.account.lastId
      && (b.ledger.networkID == 0 ==> b.world.account.networks == w.account.networks)
      && (b.ledger.networkID != 0 ==>
            && CreatedOnly(w.account.networks, b.world.account.networks, WorkersName(s.namespace), b.ledger.networkID)
            && b.outcome == (if PatchStatus in down then Outcome.Failed else Done)
            && ReadConfig(s, Ensure, down).Config?)
  {
    KeysKeepNetworks(lib, s.publicKey, w.status, down, w.account);
    var k := KeyEnsured(lib, s.publicKey, w.status, down, w.account);
    if s.infraConfig.Decoded? && s.controlPlane.Decoded? {
      NetworkStepNetworks(lib, s.namespace, s.controlPlane.value, s.infraConfig.value.networks, s.locations, down,
        k.account);
    }
  }

  lemma CleanupNetworks(s: Spec, down: set<Call>, ledger: Ledger, a: Resources, before: map<int, Network>)
    requires ledger.networkID != 0 && ReadConfig(s, Ensure, down).Config?
    requires CreatedOnly(before, a.networks, WorkersName(s.namespace), ledger.networkID)
    ensures AfterCleanup(s, down, ledger, a).networks == if NETWORK_CLEANUP !! down then before else a.networks
  {
    var name := WorkersName(s.namespace);
    assert NetworksNamed(a.networks, name) == {ledger.networkID} by {
      assert forall id | id in NetworksNamed(a.networks, name) ::
        id == ledger.networkID || id in NetworksNamed(before, name);
    }
    assert a.networks - {ledger.networkID} == before;
    NoColon(ledger.networkID);
    assert ReadConfig(s, Cleanup, down).Config? <==> ReadSecret(Cleanup) !in down;
  }

  /** What the key step needs besides the account: a public key with a fingerprint, a readable status, and calls that
      work where it makes them. */
  predicate KeyStepDone(lib: Library, s: Spec, down: set<Call>, w: World) {
    && s.publicKey != "" && !w.status.Undecodable? && Fingerprint(lib.hashes, s.publicKey).Some?
    && var fp, old' := Fingerprint(lib.hashes, s.publicKey).value, StatusFingerprint(w.status);
    && (old' == "" || old' == fp
        || (GetKey(Rotate) !in down && (DeleteKey(Rotate) in down ==> FindKey(w.account.keys, old').None?)))
    && GetKey(Ensure) !in down && (CreateKey in down ==> FindKey(w.account.keys, fp).Some?)
  }

  /** What makes a Reconcile create a network, in terms of its inputs alone. */
  predicate Creates(lib: Library, s: Spec, down: set<Call>, w: World) {
    && ReadConfig(s, Ensure, down).Config? && s.controlPlane.Decoded? && KeyStepDone(lib, s, down, w)
    && s.infraConfig.value.networks.Some?
    && var c := EffectiveConfig(s.infraConfig.value.networks.value);
    && c.Some? && ResolvedZone(c.value.zone, s.controlPlane.value, s.locations, down).Some?
    && GetNetwork(Ensure) !in down && CreateNetwork !in down
    && FindNetwork(w.account.networks, WorkersName(s.namespace)).None?
  }

  lemma RotationFindsTheSame(a: Resources, old': string, fp: string, down: set<Call>)
    requires old' != fp
    ensures FindKey(KeyDeleted(a, old', Rotate, down).account.keys, fp) == FindKey(a.keys, fp)
  {
    var d := KeyDeleted(a, old', Rotate, down).account;
    var found := FindKey(a.keys, old');
    if found.Some? {
      assert found.value in KeysWith(a.keys, old');
    }
    assert KeysWith(d.keys, fp) == KeysWith(a.keys, fp);
  }

  lemma KeyStepDoneIff(lib: Library, s: Spec, down: set<Call>, w: World)
    ensures KeyStepDone(lib, s, down, w) <==> KeyEnsured(lib, s.publicKey, w.status, down, w.account).fingerprint.Some?
  {
    var fp := Fingerprint(lib.hashes, s.publicKey);
    if fp.Some? && StatusFingerprint(w.status) != fp.value {
      RotationFindsTheSame(w.account, StatusFingerprint(w.status), fp.value, down);
    }
  }

  lemma CreatesIff(lib: Library, s: Spec, down: set<Call>, w: World)
    requires Sound(w.account)
    ensures Creates(lib, s, down, w) <==> ReconcileBody(lib, s, down, w).ledger.networkID != 0
  {
    KeyStepDoneIff(lib, s, down, w);
    KeysKeepNetworks(lib, s.publicKey, w.status, down, w.account);
    var k := KeyEnsured(lib, s.publicKey, w.status, down, w.account);
    if s.infraConfig.Decoded? && s.controlPlane.Decoded? {
      NetworkStepNetworks(lib, s.namespace, s.controlPlane.value, s.infraConfig.value.networks, s.locations, down,
        k.account);
    }
  }

  /** The networks after a call that did not end well: other than before exactly if the inputs make it create the
      network, the status update fails, and one of the rollback's own calls fails too; then that one new network
      stays. A network that was there before is never touched, and a panic happens before any network call. */
  lemma FailedReconcileRestoresNetworks(lib: Library, s: Spec, down: set<Call>, w: World)
    requires Sound(w.account)
    requires Reconciled(lib, s, down, w).outcome != Done
    ensures
      var after := Reconciled(lib, s, down, w).world.account.networks;
      && (after != w.account.networks <==>
            Creates(lib, s, down, w) && PatchStatus in down && !(NETWORK_CLEANUP !! down))
      && (after != w.account.networks ==>
            CreatedOnly(w.account.networks, after, WorkersName(s.namespace),
              ReconcileBody(lib, s, down, w).ledger.networkID))
  {
    CreatesIff(lib, s, down, w);
    BodyNetworks(lib, s, down, w);
    var b := ReconcileBody(lib, s, down, w);
    if b.ledger.networkID != 0 {
      CleanupNetworks(s, down, b.ledger, b.world.account, w.account.networks);
    } else {
      CleanupKeepsKeys(s, down, b.ledger, b.world.account);
    }
  }

  // ---------- keys ----------

  /** How one Reconcile changes the keys: keys of the old fingerprint may go unless it is still the current
      one, and at most one key comes, only when the current fingerprint had none. */
  ghost predicate KeyChange(before: map<int, SSHKey>, after: map<int, SSHKey>, old': string, fp: string, created: int) {
    && (forall id | id in after && (created == 0 || id != created) :: id in before && after[id] == before[id])
    && (forall id | id in before && (before[id].fingerprint != old' || old' == fp) ::
          id in after && after[id] == before[id])
    && (created != 0 ==>
          && created !in before && created in after
          && after[created] == SSHKey("infrastructure-ssh-" + fp, fp)
          && (forall id | id in before :: before[id].fingerprint != fp))
  }

  ghost predicate Absent(keys: map<int, SSHKey>, fingerprint: string) {
    forall id | id in keys :: keys[id].fingerprint != fingerprint
  }

  lemma DeletionKeys(a: Resources, old': string, fp: string, phase: Phase, down: set<Call>)
    requires old' != fp && Valid(a)
    ensures
      var d := KeyDeleted(a, old', phase, down);
      && KeyChange(a.keys, d.account.keys, old', fp, 0) && Valid(d.account)
      && (d.done && old' != "" && Same(KeysWith(a.keys, old')) ==> Absent(d.account.keys, old'))
  {
    var d := KeyDeleted(a, old', phase, down);
    if d.done && old' != "" && Same(KeysWith(a.keys, old')) {
      forall id | id in d.account.keys ensures d.account.keys[id].fingerprint != old' {
        assert id in KeysWith(a.keys, old') <==> a.keys[id].fingerprint == old';
      }
    }
  }

  lemma PresentKeys(a: Resources, fp: string, down: set<Call>)
    requires Valid(a)
    ensures
      var k := KeyPresent(a, fp, down);
      && KeyChange(a.keys, k.account.keys, fp, fp, OrZero(k.created))
      && (k.created.None? ==> k.account == a)
      && (k.fingerprint.Some? ==> !Absent(k.account.keys, fp))
  {
    var found := FindKey(a.keys, fp);
    if found.None? {
      assert forall id | id in a.keys && a.keys[id].fingerprint == fp :: id in KeysWith(a.keys, fp);
    } else {
      assert found.value in KeysWith(a.keys, fp);
    }
  }

  lemma KeyStepChange(lib: Library, publicKey: string, status: Decoded<InfraStatus>, down: set<Call>, a: Resources)
    requires Sound(a)
    ensures
      var k := KeyEnsured(lib, publicKey, status, down, a);
      var old' := StatusFingerprint(status);
      match Fingerprint(lib.hashes, publicKey)
      case None => k.account == a && k.created.None? && k.fingerprint.None?
      case Some(fp) =>
        && KeyChange(a.keys, k.account.keys, old', fp, OrZero(k.created))
        && (old' == fp && k.created.None? ==> k.account == a)
        && (k.fingerprint.Some? ==>
              && !Absent(k.account.keys, fp)
              && (old' != "" && old' != fp && Same(KeysWith(a.keys, old')) ==> Absent(k.account.keys, old')))
  {
    var old' := StatusFingerprint(status);
    if publicKey != "" && !status.Undecodable? {
      match Fingerprint(lib.hashes, publicKey) {
        case None =>
        case Some(fp) =>
          if old' != fp {
            DeletionKeys(a, old', fp, Rotate, down);
            PresentKeys(KeyDeleted(a, old', Rotate, down).account, fp, down);
          } else {
            PresentKeys(a, fp, down);
          }
      }
    }
  }

  lemma NetworkStepKeepsKeys(
      lib: Library, namespace: string, cpZone: string, networks: Option<Networks>, locations: seq<Location>,
      down: set<Call>, a: Resources)
    ensures NetworkEnsured(lib, namespace, cpZone, networks, locations, down, a).account.keys == a.keys
  {
  }

  /** The body either fails before its key step and changes nothing, or leaves the keys of that step. */
  lemma BodyKeys(lib: Library, s: Spec, down: set<Call>, w: World)
    ensures
      var b := ReconcileBody(lib, s, down, w);
      var k := KeyEnsured(lib, s.publicKey, w.status, down, w.account);
      && (b.outcome != Done ==> b.world.status == w.status)
      && ( b == BodyStep(w, Ledger(0, 0), Outcome.Failed)
        || (&& b.world.account.keys == k.account.keys
            && b.ledger.sshKeyID == OrZero(k.created)
            && (k.fingerprint.None? ==>
                  b == BodyStep(w.(account := k.account), Ledger(0, OrZero(k.created)), Outcome.Failed))
            && (b.outcome == Done ==>
                  && k.fingerprint.Some? && b.world.status.Decoded?
                  && b.world.status.value.sshFingerprint == k.fingerprint.value)))
  {
    if s.infraConfig.Decoded? && s.controlPlane.Decoded? {
      var k := KeyEnsured(lib, s.publicKey, w.status, down, w.account);
      NetworkStepKeepsKeys(lib, s.namespace, s.controlPlane.value, s.infraConfig.value.networks, s.locations, down,
        k.account);
    }
  }

  /** The keys after a Reconcile are those after its key step, whatever the rollback does. */
  lemma ReconcileKeys(lib: Library, s: Spec, down: set<Call>, w: World)
    requires Sound(w.account)
    ensures
      var r := Reconciled(lib, s, down, w);
      var b := ReconcileBody(lib, s, down, w);
      && r.world.account.keys == b.world.account.keys
      && r.world.status == b.world.status
      && match Fingerprint(lib.hashes, s.publicKey)
         case None => r.outcome == Outcome.Failed && r.world == w && b.ledger.sshKeyID == 0
         case Some(fp) =>
           && KeyChange(w.account.keys, r.world.account.keys, StatusFingerprint(w.status), fp, b.ledger.sshKeyID)
           && (r.outcome == Done ==>
                 && !Absent(r.world.account.keys, fp)
                 && r.world.status.Decoded? && r.world.status.value.sshFingerprint == fp
                 && (StatusFingerprint(w.status) != "" && StatusFingerprint(w.status) != fp
                     && Same(KeysWith(w.account.keys, StatusFingerprint(w.status))) ==>
                       Absent(r.world.account.keys, StatusFingerprint(w.status))))
           && (r.outcome != Done ==> r.world.status == w.status)
  {
    KeysKeepNetworks(lib, s.publicKey, w.status, down, w.account);
    BodyNetworks(lib, s, down, w);
    BodyKeys(lib, s, down, w);
    KeyStepChange(lib, s.publicKey, w.status, down, w.account);
    var b := ReconcileBody(lib, s, down, w);
    CleanupKeepsKeys(s, down, b.ledger, b.world.account);
  }

  /** The call gets past its key step. */
  predicate ReachesKey(lib: Library, s: Spec, down: set<Call>, w: World) {
    ReadConfig(s, Ensure, down).Config? && s.controlPlane.Decoded? && KeyStepDone(lib, s, down, w)
  }

  /** A call that gets past its key step leaves a key of the current fingerprint, however it ends; one that does not
      creates none. */
  lemma ReachedKeyIsThere(lib: Library, s: Spec, down: set<Call>, w: World)
    requires Sound(w.account) && Fingerprint(lib.hashes, s.publicKey).Some?
    ensures
      if ReachesKey(lib, s, down, w)
      then !Absent(Reconciled(lib, s, down, w).world.account.keys, Fingerprint(lib.hashes, s.publicKey).value)
      else ReconcileBody(lib, s, down, w).ledger.sshKeyID == 0
  {
    KeyStepDoneIff(lib, s, down, w);
    KeysKeepNetworks(lib, s.publicKey, w.status, down, w.account);
    KeyStepChange(lib, s.publicKey, w.status, down, w.account);
    BodyKeys(lib, s, down, w);
    ReconcileKeys(lib, s, down, w);
  }

  /** The keys after the key step, when there is another key to rotate away from. */
  lemma RotationStep(a: Resources, old': string, fp: string, down: set<Call>)
    requires old' != "" && old' != fp && !Absent(a.keys, old') && Same(KeysWith(a.keys, old')) && Valid(a)
    ensures
      var d := KeyDeleted(a, old', Rotate, down);
      && (Absent(d.account.keys, old') <==> GetKey(Rotate) !in down && DeleteKey(Rotate) !in down)
      && (d.done <==> GetKey(Rotate) !in down && DeleteKey(Rotate) !in down)
      && (Absent(KeyPresent(d.account, fp, down).account.keys, old') <==> Absent(d.account.keys, old'))
  {
    var found := FindKey(a.keys, old');
    var id :| id in a.keys && a.keys[id].fingerprint == old';
    assert id in KeysWith(a.keys, old');
    assert found.value == id;
    var d := KeyDeleted(a, old', Rotate, down).account;
    forall j | j in d.keys && d.keys[j].fingerprint == old' ensures j == id {
      assert j in KeysWith(a.keys, old');
    }
    var k := KeyPresent(d, fp, down).account;
    assert forall j | j in d.keys :: j in k.keys && k.keys[j] == d.keys[j];
  }

  /** Whether the body gets to its key step. */
  lemma BodyReachesKeyStep(lib: Library, s: Spec, down: set<Call>, w: World)
    ensures
      if ReadConfig(s, Ensure, down).Config? && s.controlPlane.Decoded?
      then ReconcileBody(lib, s, down, w).world.account.keys
        == KeyEnsured(lib, s.publicKey, w.status, down, w.account).account.keys
      else ReconcileBody(lib, s, down, w).world == w
  {
    if s.infraConfig.Decoded? && s.controlPlane.Decoded? {
      var k := KeyEnsured(lib, s.publicKey, w.status, down, w.account);
      NetworkStepKeepsKeys(lib, s.namespace, s.controlPlane.value, s.infraConfig.value.networks, s.locations, down,
        k.account);
    }
  }

  /** A rotation away from the status's key takes effect exactly if the call gets as far as that and the two calls it
      needs work, however the call ends. */
  lemma RotationHappens(lib: Library, s: Spec, down: set<Call>, w: World)
    requires Sound(w.account) && Fingerprint(lib.hashes, s.publicKey).Some?
    requires
      var old' := StatusFingerprint(w.status);
      && old' != "" && old' != Fingerprint(lib.hashes, s.publicKey).value
      && !Absent(w.account.keys, old') && Same(KeysWith(w.account.keys, old'))
    ensures
      Absent(Reconciled(lib, s, down, w).world.account.keys, StatusFingerprint(w.status)) <==>
        && s.cloudProfile.Decoded? && s.infraConfig.Decoded? && s.credentials && ReadSecret(Ensure) !in down
        && s.controlPlane.Decoded? && s.publicKey != "" && GetKey(Rotate) !in down && DeleteKey(Rotate) !in down
  {
    var old' := StatusFingerprint(w.status);
    var fp := Fingerprint(lib.hashes, s.publicKey).value;
    ReconcileKeys(lib, s, down, w);
    BodyKeys(lib, s, down, w);
    RotationStep(w.account, old', fp, down);
    BodyReachesKeyStep(lib, s, down, w);
  }

  lemma CreatedIsOnlyOne(before: map<int, SSHKey>, after: map<int, SSHKey>, old': string, fp: string, created: int)
    requires KeyChange(before, after, old', fp, created) && created != 0
    ensures created !in before && KeysWith(after, fp) == {created}
  {
    forall id | id in KeysWith(after, fp) ensures id == created {
      assert id in after;
    }
  }

  lemma PresentIsKept(
      before: map<int, SSHKey>, after: map<int, SSHKey>, old': string, fp: string, created: int, present: int)
    requires KeyChange(before, after, old', fp, created) && present in KeysWith(before, fp)
    ensures created == 0 && KeysWith(after, fp) == KeysWith(before, fp)
  {
    assert before[present].fingerprint == fp;
    forall id | id in KeysWith(before, fp) ensures id in KeysWith(after, fp) {
      assert id in before;
    }
    forall id | id in KeysWith(after, fp) ensures id in KeysWith(before, fp) {
      assert id in after;
    }
  }

  lemma CleanupSound(s: Spec, down: set<Call>, ledger: Ledger, a: Resources)
    requires Sound(a)
    ensures
      var a' := AfterCleanup(s, down, ledger, a);
      Sound(a') && a'.groups == a.groups && a'.lastId == a.lastId
  {
  }

  lemma ReconcileSound(lib: Library, s: Spec, down: set<Call>, w: World)
    requires Sound(w.account)
    ensures Sound(Reconciled(lib, s, down, w).world.account)
    ensures Reconciled(lib, s, down, w).world.account.groups == w.account.groups
    ensures Reconciled(lib, s, down, w).world.account.lastId >= w.account.lastId
  {
    BodyNetworks(lib, s, down, w);
    CleanupSound(s, down, ReconcileBody(lib, s, down, w).ledger, ReconcileBody(lib, s, down, w).world.account);
  }

  /** Rolling back a failed Reconcile never undoes its key changes: the key it created stays, and the next
      Reconcile for the same public key adopts that key instead of creating another one. */
  lemma LeftoverKeyIsAdopted(lib: Library, s: Spec, down: set<Call>, next: Spec, nextDown: set<Call>, w: World)
    requires Sound(w.account) && next.publicKey == s.publicKey
    requires Reconciled(lib, s, down, w).outcome == Outcome.Failed
    requires ReconcileBody(lib, s, down, w).ledger.sshKeyID != 0
    ensures
      var id := ReconcileBody(lib, s, down, w).ledger.sshKeyID;
      var fp := Fingerprint(lib.hashes, s.publicKey).value;
      var left := Reconciled(lib, s, down, w).world;
      && id !in w.account.keys
      && KeysWith(left.account.keys, fp) == {id}
      && ReconcileBody(lib, next, nextDown, left).ledger.sshKeyID == 0
      && KeysWith(Reconciled(lib, next, nextDown, left).world.account.keys, fp) == {id}
  {
    ReconcileKeys(lib, s, down, w);
    var id := ReconcileBody(lib, s, down, w).ledger.sshKeyID;
    var fp := Fingerprint(lib.hashes, s.publicKey).value;
    var left := Reconciled(lib, s, down, w).world;
    var old' := StatusFingerprint(w.status);
    CreatedIsOnlyOne(w.account.keys, left.account.keys, old', fp, id);
    ReconcileSound(lib, s, down, w);
    ReconcileKeys(lib, next, nextDown, left);
    var after := Reconciled(lib, next, nextDown, left).world.account.keys;
    PresentIsKept(left.account.keys, after, old', fp, ReconcileBody(lib, next, nextDown, left).ledger.sshKeyID, id);
  }

  // ---------- success, repetition and deletion ----------

  /** The id a status records, as the text the API server stores. */
  function RecordedID(id: Option<int>): Option<string> {
    if id.Some? then Some(FormatInt(id.value)) else None
  }

  /** After success the status names the current key and the network that a lookup by name finds; the network
      is recorded, with a positive id, whenever the configuration asks for one. */
  lemma SuccessRecordsNetwork(lib: Library, s: Spec, down: set<Call>, w: World)
    requires Sound(w.account) && Reconciled(lib, s, down, w).outcome == Done
    ensures s.infraConfig.Decoded? && s.infraConfig.value.networks.Some?
    ensures
      var r := Reconciled(lib, s, down, w).world;
      var wanted := EffectiveConfig(s.infraConfig.value.networks.value).Some?;
      var found := FindNetwork(r.account.networks, WorkersName(s.namespace));
      && r.status.Decoded?
      && r.status.value.floatingPoolName == s.infraConfig.value.floatingPoolName
      && (!wanted ==> r.status.value.workersNetworkID == None && r.account.networks == w.account.networks)
      && (wanted ==> found.Some? && found.value > 0 && r.status.value.workersNetworkID == RecordedID(found))
  {
    KeysKeepNetworks(lib, s.publicKey, w.status, down, w.account);
    var k := KeyEnsured(lib, s.publicKey, w.status, down, w.account);
    var n :=
      NetworkEnsured(lib, s.namespace, s.controlPlane.value, s.infraConfig.value.networks, s.locations, down,
        k.account);
    if n.created.Some? {
      BodyNetworks(lib, s, down, w);
      assert n.created.value in NetworksNamed(n.account.networks, WorkersName(s.namespace));
      assert forall id | id in NetworksNamed(n.account.networks, WorkersName(s.namespace)) ::
        id == n.created.value || id in NetworksNamed(w.account.networks, WorkersName(s.namespace));
    }
  }

  lemma PresentIsFound(keys: map<int, SSHKey>, fp: string)
    ensures FindKey(keys, fp).Some? <==> !Absent(keys, fp)
  {
    assert forall id | id in keys && keys[id].fingerprint == fp :: id in KeysWith(keys, fp);
  }

  lemma IdleBody(lib: Library, s: Spec, down: set<Call>, r: World)
    requires s.infraConfig.Decoded? && s.infraConfig.value.networks.Some?
    requires Fingerprint(lib.hashes, s.publicKey).Some? && r.status.Decoded?
    requires r.status.value.sshFingerprint == Fingerprint(lib.hashes, s.publicKey).value
    requires FindKey(r.account.keys, r.status.value.sshFingerprint).Some?
    requires r.status.value.floatingPoolName == s.infraConfig.value.floatingPoolName
    requires
      var found := FindNetwork(r.account.networks, WorkersName(s.namespace));
      if EffectiveConfig(s.infraConfig.value.networks.value).Some?
      then found.Some? && found.value > 0 && r.status.value.workersNetworkID == RecordedID(found)
      else r.status.value.workersNetworkID == None
    ensures Reconciled(lib, s, down, r).world == r
    ensures Reconciled(lib, s, down, r).outcome != Panicked
    ensures ReconcileBody(lib, s, down, r).ledger == Ledger(0, 0)
  {
    var k := KeyEnsured(lib, s.publicKey, r.status, down, r.account);
    assert k.account == r.account && k.created.None?;
  }

  /** Once a Reconcile succeeded, running it again with the same specification changes neither the account nor
      the status, whichever calls fail; and it succeeds again when none does. */
  lemma RepeatedReconcileIsIdle(lib: Library, s: Spec, down: set<Call>, again: set<Call>, w: World)
    requires Sound(w.account) && Reconciled(lib, s, down, w).outcome == Done
    ensures
      var r := Reconciled(lib, s, down, w).world;
      && Reconciled(lib, s, again, r).world == r
      && (again == {} ==> Reconciled(lib, s, again, r).outcome == Done)
  {
    ReconcileKeys(lib, s, down, w);
    ReconcileSound(lib, s, down, w);
    SuccessRecordsNetwork(lib, s, down, w);
    var r := Reconciled(lib, s, down, w).world;
    var fp := Fingerprint(lib.hashes, s.publicKey).value;
    PresentIsFound(r.account.keys, fp);
    IdleBody(lib, s, again, r);
  }

  /** What a successful Delete removes. The network and the key the status records go, found by name and by
      fingerprint, and nothing else does. Nothing at all is removed, although Delete reports success, when the
      cloud profile or the Infrastructure carries no provider configuration or the status cannot be decoded. */
  lemma SuccessfulDelete(s: Spec, down: set<Call>, w: World)
    requires Deleted(s, down, w).outcome == Done
    ensures
      var r := Deleted(s, down, w).world;
      var acts := s.cloudProfile.Decoded? && s.infraConfig.Decoded? && w.status.Decoded?;
      var networks := w.account.networks;
      var found := FindNetwork(networks, WorkersName(s.namespace));
      var key := if acts then FindKey(w.account.keys, w.status.value.sshFingerprint) else None;
      var recorded := acts && w.status.value.workersNetworkID.Some? && w.status.value.workersNetworkID.value != "";
      && r.status == w.status
      && r.account.groups == w.account.groups && r.account.lastId == w.account.lastId
      && r.account.networks == (if recorded && found.Some? then networks - {found.value} else networks)
      && r.account.keys ==
         (if key.Some? && w.status.value.sshFingerprint != "" then w.account.keys - {key.value} else w.account.keys)
  {
  }

  /** The name is gone after a successful Delete exactly when it was not there before, or both provider
      configurations are there, the status is decodable and it records a network. */
  lemma DeleteFreesNetwork(s: Spec, down: set<Call>, w: World)
    requires Deleted(s, down, w).outcome == Done
    requires AtMostOneNetwork(w.account, s.namespace)
    ensures
      FindNetwork(Deleted(s, down, w).world.account.networks, WorkersName(s.namespace)).None? <==>
        || FindNetwork(w.account.networks, WorkersName(s.namespace)).None?
        || (&& s.cloudProfile.Decoded? && s.infraConfig.Decoded? && w.status.Decoded?
            && w.status.value.workersNetworkID.Some? && w.status.value.workersNetworkID.value != "")
  {
    SuccessfulDelete(s, down, w);
    var name := WorkersName(s.namespace);
    var found := FindNetwork(w.account.networks, name);
    var after := Deleted(s, down, w).world.account.networks;
    if found.Some? {
      assert found.value in NetworksNamed(w.account.networks, name);
      assert forall id | id in NetworksNamed(after, name) :: id in NetworksNamed(w.account.networks, name);
    }
  }

  lemma CreatedKeepsUnique(before: map<int, Network>, after: map<int, Network>, name: string, id: int)
    requires CreatedOnly(before, after, name, id)
    ensures Same(NetworksNamed(after, name))
  {
    forall i | i in NetworksNamed(after, name) ensures i == id {
      assert i != id ==> i in NetworksNamed(before, name);
    }
  }

  lemma KeyChangeKeepsUnique(
      before: map<int, SSHKey>, after: map<int, SSHKey>, old': string, fp: string, created: int, g: string)
    requires KeyChange(before, after, old', fp, created) && Same(KeysWith(before, g))
    ensures Same(KeysWith(after, g))
  {
    forall i, j | i in KeysWith(after, g) && j in KeysWith(after, g) ensures i == j {
      assert i in after && j in after;
      assert created == 0 || i != created ==> i in KeysWith(before, g);
      assert created == 0 || j != created ==> j in KeysWith(before, g);
    }
  }

  /** Reconcile keeps the network name and every fingerprint unique, whatever fails. */
  lemma ReconcileKeepsUnique(lib: Library, s: Spec, down: set<Call>, w: World, g: string)
    requires Sound(w.account)
    ensures
      var r := Reconciled(lib, s, down, w).world.account;
      && (AtMostOneNetwork(w.account, s.namespace) ==> AtMostOneNetwork(r, s.namespace))
      && (Same(KeysWith(w.account.keys, g)) ==> Same(KeysWith(r.keys, g)))
  {
    var b := ReconcileBody(lib, s, down, w);
    var r := Reconciled(lib, s, down, w);
    BodyNetworks(lib, s, down, w);
    if r.outcome != Done {
      FailedReconcileRestoresNetworks(lib, s, down, w);
    }
    if r.world.account.networks != w.account.networks {
      CreatedKeepsUnique(w.account.networks, r.world.account.networks, WorkersName(s.namespace), b.ledger.networkID);
    }
    ReconcileKeys(lib, s, down, w);
    var fp := Fingerprint(lib.hashes, s.publicKey);
    if fp.Some? && Same(KeysWith(w.account.keys, g)) {
      KeyChangeKeepsUnique(w.account.keys, r.world.account.keys,
        StatusFingerprint(w.status), fp.value, b.ledger.sshKeyID, g);
    }
  }

  function NetworksNotNamed(m: map<int, Network>, name: string): map<int, Network> {
    map id | id in m && m[id].name != name :: m[id]
  }

  function KeysWithout(m: map<int, SSHKey>, fingerprint: string): map<int, SSHKey> {
    map id | id in m && m[id].fingerprint != fingerprint :: m[id]
  }

  lemma RemoveOnlyNetwork(m: map<int, Network>, name: string)
    requires Same(NetworksNamed(m, name))
    ensures FindNetwork(m, name).Some? ==> m - {FindNetwork(m, name).value} == NetworksNotNamed(m, name)
    ensures FindNetwork(m, name).None? ==> m == NetworksNotNamed(m, name)
  {
    assert forall id | id in m && m[id].name == name :: id in NetworksNamed(m, name);
  }

  lemma RemoveOnlyKey(m: map<int, SSHKey>, fingerprint: string)
    requires Same(KeysWith(m, fingerprint))
    ensures FindKey(m, fingerprint).Some? ==> m - {FindKey(m, fingerprint).value} == KeysWithout(m, fingerprint)
    ensures FindKey(m, fingerprint).None? ==> m == KeysWithout(m, fingerprint)
  {
    assert forall id | id in m && m[id].fingerprint == fingerprint :: id in KeysWith(m, fingerprint);
  }

  /** The account without what the status records. */
  function WithoutRecorded(w: World, namespace: string): Resources
    requires w.status.Decoded?
  {
    w.account.(
      networks :=
        if w.status.value.workersNetworkID.Some? then NetworksNotNamed(w.account.networks, WorkersName(namespace))
        else w.account.networks,
      keys := KeysWithout(w.account.keys, w.status.value.sshFingerprint))
  }

  /** The Delete finds both provider configurations, without which it reports success and does nothing. */
  predicate Configured(s: Spec) {
    s.cloudProfile.Decoded? && s.infraConfig.Decoded?
  }

  lemma DeleteRecorded(s: Spec, down: set<Call>, w: World)
    requires Deleted(s, down, w).outcome == Done && Configured(s)
    requires w.status.Decoded? && w.status.value.sshFingerprint != "" && w.status.value.workersNetworkID != Some("")
    requires AtMostOneNetwork(w.account, s.namespace) && Same(KeysWith(w.account.keys, w.status.value.sshFingerprint))
    ensures Deleted(s, down, w).world == World(WithoutRecorded(w, s.namespace), w.status)
  {
    SuccessfulDelete(s, down, w);
    RemoveOnlyNetwork(w.account.networks, WorkersName(s.namespace));
    RemoveOnlyKey(w.account.keys, w.status.value.sshFingerprint);
  }

  lemma DeleteWithoutRecorded(s: Spec, down: set<Call>, w: World)
    requires w.status.Decoded? && w.account == WithoutRecorded(w, s.namespace)
    ensures Deleted(s, down, w).world == w
  {
    assert w.account.keys == KeysWithout(w.account.keys, w.status.value.sshFingerprint);
    assert KeysWith(w.account.keys, w.status.value.sshFingerprint) == {};
    if w.status.value.workersNetworkID.Some? {
      assert w.account.networks == NetworksNotNamed(w.account.networks, WorkersName(s.namespace));
      assert NetworksNamed(w.account.networks, WorkersName(s.namespace)) == {};
    }
  }

  /** A successful Reconcile, then any Delete of the namespace that succeeds: exactly the recorded network and the
      recorded key go, or nothing when a configuration is missing. Without faults it does succeed when it can read its
      secret. */
  lemma DeleteAfterReconcile(
      lib: Library, s: Spec, down: set<Call>, d: Spec, deleteDown: set<Call>, w: World)
    requires Sound(w.account) && Reconciled(lib, s, down, w).outcome == Done
    requires AtMostOneNetwork(w.account, s.namespace) && d.namespace == s.namespace
    requires forall fp | Fingerprint(lib.hashes, s.publicKey) == Some(fp) :: Same(KeysWith(w.account.keys, fp))
    ensures
      var r := Reconciled(lib, s, down, w).world;
      && r.status.Decoded?
      && (Deleted(d, deleteDown, r).outcome == Done ==>
            Deleted(d, deleteDown, r).world ==
              if Configured(d) then World(WithoutRecorded(r, s.namespace), r.status) else r)
      && (Configured(d) && d.credentials ==> Deleted(d, {}, r).outcome == Done)
  {
    var r := Reconciled(lib, s, down, w).world;
    SuccessRecordsNetwork(lib, s, down, w);
    ReconcileKeys(lib, s, down, w);
    var fp := r.status.value.sshFingerprint;
    FingerprintShape(lib.hashes, s.publicKey);
    ReconcileKeepsUnique(lib, s, down, w, fp);
    if r.status.value.workersNetworkID.Some? {
      NoColon(FindNetwork(r.account.networks, WorkersName(s.namespace)).value);
    }
    if Deleted(d, deleteDown, r).outcome == Done {
      if Configured(d) {
        DeleteRecorded(d, deleteDown, r);
      } else {
        SuccessfulDelete(d, deleteDown, r);
      }
    }
  }

  /** Once that has happened, a further Delete of the namespace changes nothing, whichever calls fail. */
  lemma FurtherDeleteIsIdle(s: Spec, down: set<Call>, w: World)
    requires w.status.Decoded?
    ensures
      var gone := World(WithoutRecorded(w, s.namespace), w.status);
      Deleted(s, down, gone).world == gone
  {
    DeleteWithoutRecorded(s, down, World(WithoutRecorded(w, s.namespace), w.status));
  }

  // ---------- retries ----------

  /** What a Reconcile needs besides calls that work. */
  predicate Feasible(lib: Library, s: Spec, status: Decoded<InfraStatus>) {
    && s.cloudProfile.Decoded? && s.infraConfig.Decoded? && s.credentials && s.controlPlane.Decoded?
    && s.publicKey != "" && Fingerprint(lib.hashes, s.publicKey).Some? && !status.Undecodable?
    && s.infraConfig.value.networks.Some?
    && var c := EffectiveConfig(s.infraConfig.value.networks.value);
    (c.None? || c.value.zone != "" || LocationZone(GetRegionFromZone(s.controlPlane.value), s.locations) != "")
  }

  /** When no call fails, a Reconcile succeeds exactly if it is feasible, whatever the account holds. */
  lemma FaultFreeReconcile(lib: Library, s: Spec, w: World)
    ensures Reconciled(lib, s, {}, w).outcome == Done <==> Feasible(lib, s, w.status)
  {
  }

  /** No Reconcile makes a status undecodable, nor one decodable that was not. */
  lemma ReconcileKeepsDecodable(lib: Library, s: Spec, down: set<Call>, w: World)
    ensures Reconciled(lib, s, down, w).world.status.Undecodable? <==> w.status.Undecodable?
  {
    BodyKeys(lib, s, down, w);
  }

  /** The calls the network step makes do work. */
  predicate NetworkStepDone(c: NetworkConfig, s: Spec, down: set<Call>, w: World) {
    && (c.zone == "" ==> ListLocations !in down)
    && GetNetwork(Ensure) !in down
    && (CreateNetwork in down ==> FindNetwork(w.account.networks, WorkersName(s.namespace)).Some?)
  }

  lemma NetworkStepOutcome(
      lib: Library, s: Spec, down: set<Call>, a: Resources, w: World, networks: Networks, cpZone: string)
    requires a.networks == w.account.networks && Valid(a)
    ensures
      var n := NetworkEnsured(lib, s.namespace, cpZone, Some(networks), s.locations, down, a);
      var c := EffectiveConfig(networks);
      && n.result != NilDereference
      && (n.result.NetworkID? <==>
            c.Some? ==>
              && NetworkStepDone(c.value, s, down, w)
              && (c.value.zone == "" ==> LocationZone(GetRegionFromZone(cpZone), s.locations) != ""))
  {
  }

  /** How a Reconcile ends, for all failures: it succeeds exactly if it is feasible and every call it gets to works, and
      it dereferences nil exactly if it gets past its key step without a networks section. */
  lemma ReconcileOutcome(lib: Library, s: Spec, down: set<Call>, w: World)
    requires Sound(w.account)
    ensures
      Reconciled(lib, s, down, w).outcome == Done <==>
        && Feasible(lib, s, w.status) && ReadSecret(Ensure) !in down && KeyStepDone(lib, s, down, w)
        && (var c := EffectiveConfig(s.infraConfig.value.networks.value);
            c.Some? ==> NetworkStepDone(c.value, s, down, w))
        && PatchStatus !in down
    ensures
      Reconciled(lib, s, down, w).outcome == Panicked <==>
        && s.cloudProfile.Decoded? && s.infraConfig.Decoded? && s.credentials && ReadSecret(Ensure) !in down
        && s.controlPlane.Decoded? && KeyStepDone(lib, s, down, w) && s.infraConfig.value.networks.None?
  {
    KeyStepDoneIff(lib, s, down, w);
    KeysKeepNetworks(lib, s.publicKey, w.status, down, w.account);
    var k := KeyEnsured(lib, s.publicKey, w.status, down, w.account);
    if s.infraConfig.Decoded? && s.controlPlane.Decoded? && s.infraConfig.value.networks.Some? {
      NetworkStepOutcome(lib, s, down, k.account, w, s.infraConfig.value.networks.value, s.controlPlane.value);
    }
  }

  /** A lookup works, and so does the deletion unless nothing was found. */
  predicate DeletionWorks(get: Call, delete: Call, found: Option<int>, down: set<Call>) {
    get !in down && (delete in down ==> found.None?)
  }

  /** The calls the recorded status leads a Delete to. */
  predicate RecordedDeletionsWork(s: Spec, status: InfraStatus, down: set<Call>, a: Resources) {
    && (status.workersNetworkID.Some? && status.workersNetworkID.value != "" ==>
          DeletionWorks(GetNetwork(Teardown), DeleteNetwork(Teardown),
            FindNetwork(a.networks, WorkersName(s.namespace)), down))
    && (status.sshFingerprint != "" ==>
          DeletionWorks(GetKey(Teardown), DeleteKey(Teardown), FindKey(a.keys, status.sshFingerprint), down))
  }

  /** When a Delete succeeds: a missing configuration, even beside an undecodable one that is read later, or an
      unreadable status end it well; otherwise it reads its secret and needs the calls its status leads to. It never
      panics. */
  lemma DeleteSucceedsIff(s: Spec, down: set<Call>, w: World)
    ensures Deleted(s, down, w).outcome != Panicked
    ensures
      Deleted(s, down, w).outcome == Done <==>
        || s.cloudProfile.Missing?
        || (s.cloudProfile.Decoded? && s.infraConfig.Missing?)
        || (&& s.cloudProfile.Decoded? && s.infraConfig.Decoded? && s.credentials && ReadSecret(Teardown) !in down
            && (w.status.Decoded? ==> RecordedDeletionsWork(s, w.status.value, down, w.account)))
  {
  }

  /** The state a Delete that fails leaves behind: the recorded network is gone exactly if its lookup and its deletion
      worked, and nothing else has changed. */
  lemma FailedDeleteLeaves(s: Spec, down: set<Call>, w: World)
    requires Deleted(s, down, w).outcome == Outcome.Failed
    ensures
      var found := FindNetwork(w.account.networks, WorkersName(s.namespace));
      var acts :=
        && s.cloudProfile.Decoded? && s.infraConfig.Decoded? && s.credentials && ReadSecret(Teardown) !in down
        && w.status.Decoded? && w.status.value.workersNetworkID.Some? && w.status.value.workersNetworkID.value != ""
        && GetNetwork(Teardown) !in down && DeleteNetwork(Teardown) !in down && found.Some?;
      Deleted(s, down, w).world ==
        if acts then w.(account := w.account.(networks := w.account.networks - {found.value})) else w
  {
  }

  /** A Delete that failed keeps the key, and when it is tried again without faults it ends exactly where a first
      Delete without faults would have ended. */
  lemma RetriedDeleteConverges(s: Spec, down: set<Call>, w: World)
    requires AtMostOneNetwork(w.account, s.namespace)
    requires Deleted(s, down, w).outcome == Outcome.Failed
    ensures
      var left := Deleted(s, down, w).world;
      && left.account.keys == w.account.keys && left.status == w.status
      && Deleted(s, {}, left) == Deleted(s, {}, w)
  {
    var name := WorkersName(s.namespace);
    RemoveOnlyNetwork(w.account.networks, name);
    assert NetworksNamed(NetworksNotNamed(w.account.networks, name), name) == {};
  }
}
