/** pkg/controller/worker/ensurer and the worker hooks: placement groups, their ids in the status, and their removal. */
module PlacementGroups {
  import opened Wrappers
  import opened Account
  import opened Machines
  import opened Fingerprints
  import NT = NodeTemplates

  /** The calls of one hook; those in loops carry the index of the pool. */
  datatype GroupCall = GetByName(pool: nat) | Create(pool: nat) | GetById(pool: nat) | DeleteById(pool: nat)

  predicate WantsGroup(p: Pool) {
    p.providerConfig.Decoded? && p.providerConfig.value != ""
  }

  // ---------- ensuring ----------

  datatype GroupStep = GroupStep(account: Resources, ids: map<string, int>, ok: bool)

  function OneEnsured(namespace: string, p: Pool, i: nat, down: set<GroupCall>, g: GroupStep): GroupStep {
    if p.providerConfig.Undecodable? then g.(ok := false)
    else if !WantsGroup(p) then g
    else
      var name := GroupName(namespace, p.name);
      if GetByName(i) in down then g.(ok := false)
      else match FindGroup(g.account.groups, name)
        case Some(id) => g.(ids := g.ids[name := id])
        case None =>
          if Create(i) in down then g.(ok := false)
          else
            var a := AddGroup(g.account, PlacementGroup(name));
            GroupStep(a, g.ids[name := a.lastId], true)
  }

  function Ensured(namespace: string, pools: seq<Pool>, down: set<GroupCall>, a: Resources): GroupStep {
    if pools == [] then GroupStep(a, map[], true) else
      var i := |pools| - 1;
      var g := Ensured(namespace, pools[..i], down, a);
      if g.ok then OneEnsured(namespace, pools[i], i, down, g) else g
  }

  lemma {:induction false} FailureIsFinal(
      namespace: string, pools: seq<Pool>, down: set<GroupCall>, a: Resources, k: nat)
    requires k <= |pools| && !Ensured(namespace, pools[..k], down, a).ok
    ensures Ensured(namespace, pools, down, a) == Ensured(namespace, pools[..k], down, a)
  {
    if k < |pools| {
      var i := |pools| - 1;
      assert pools[..i][..k] == pools[..k];
      FailureIsFinal(namespace, pools[..i], down, a, k);
    } else {
      assert pools[..k] == pools;
    }
  }

  method EnsurePlacementGroups(client: Client, namespace: string, pools: seq<Pool>, down: set<GroupCall>)
    returns (ids: map<string, int>, ok: bool)
    modifies client
    ensures GroupStep(client.View(), ids, ok) == Ensured(namespace, pools, down, old(client.View()))
  {
    ids := map[];
    for i := 0 to |pools|
      invariant GroupStep(client.View(), ids, true) == Ensured(namespace, pools[..i], down, old(client.View()))
    {
      var worker := pools[i];
      assert pools[..i + 1][..i] == pools[..i];
      if worker.providerConfig.Missing? {
        continue;
      }
      if worker.providerConfig.Undecodable? {
        FailureIsFinal(namespace, pools, down, old(client.View()), i + 1);
        return ids, false;
      }
      if worker.providerConfig.value == "" {
        continue;
      }
      var name := GroupName(namespace, worker.name);
      var found := client.GetGroupByName(name, GetByName(i) in down);
      if found.Unavailable? {
        FailureIsFinal(namespace, pools, down, old(client.View()), i + 1);
        return ids, false;
      }
      var id := 0;
      if found.value.Some? {
        id := found.value.value;
      } else {
        var created := client.CreateGroup(PlacementGroup(name), Create(i) in down);
        if created.Unavailable? {
          FailureIsFinal(namespace, pools, down, old(client.View()), i + 1);
          return ids, false;
        }
        id := created.value;
      }
      ids := ids[name := id];
    }
    assert pools[..|pools|] == pools;
    return ids, true;
  }

  // ---------- what ensuring keeps and establishes ----------

  /** No name has two groups. */
  ghost predicate UniqueGroups(a: Resources) {
    forall i, j | i in a.groups && j in a.groups && a.groups[i].name == a.groups[j].name :: i == j
  }

  /** Nothing is deleted or renamed, and nothing but groups is added. */
  ghost predicate GroupsGrow(before: Resources, after: Resources) {
    && after.networks == before.networks && after.keys == before.keys && before.lastId <= after.lastId
    && (forall id | id in before.groups :: id in after.groups && after.groups[id] == before.groups[id])
  }

  /** The ids collected so far exist under their names. */
  ghost predicate IdsExist(g: GroupStep) {
    forall n | n in g.ids :: g.ids[n] in g.account.groups && g.account.groups[g.ids[n]].name == n
  }

  lemma FoundIffHere(a: Resources, name: string)
    ensures FindGroup(a.groups, name).None? ==> forall id | id in a.groups :: a.groups[id].name != name
    ensures FindGroup(a.groups, name).Some? ==>
      FindGroup(a.groups, name).value in a.groups && a.groups[FindGroup(a.groups, name).value].name == name
  {
    assert forall id | id in a.groups && a.groups[id].name == name :: id in GroupsNamed(a.groups, name);
  }

  lemma AddingKeepsUnique(a: Resources, name: string)
    requires Valid(a) && UniqueGroups(a) && forall id | id in a.groups :: a.groups[id].name != name
    ensures
      var a' := AddGroup(a, PlacementGroup(name));
      Valid(a') && UniqueGroups(a') && GroupsGrow(a, a')
  {
  }

  lemma OneStep(namespace: string, p: Pool, i: nat, down: set<GroupCall>, g: GroupStep)
    requires Valid(g.account) && UniqueGroups(g.account) && IdsExist(g)
    ensures
      var g' := OneEnsured(namespace, p, i, down, g);
      && Valid(g'.account) && UniqueGroups(g'.account) && IdsExist(g') && GroupsGrow(g.account, g'.account)
      && (g'.ok ==> g'.ids.Keys == g.ids.Keys + if WantsGroup(p) then {GroupName(namespace, p.name)} else {})
      && (forall id | id in g'.account.groups && id !in g.account.groups ::
            WantsGroup(p) && g'.account.groups[id].name == GroupName(namespace, p.name) && g'.ok)
  {
    var name := GroupName(namespace, p.name);
    FoundIffHere(g.account, name);
    if FindGroup(g.account.groups, name).None? {
      AddingKeepsUnique(g.account, name);
    }
  }

  /** The names of the groups the pools ask for. */
  function WantedNames(namespace: string, pools: seq<Pool>): set<string> {
    set p | p in pools && WantsGroup(p) :: GroupName(namespace, p.name)
  }

  lemma WantedSplit(namespace: string, pools: seq<Pool>, p: Pool)
    ensures WantedNames(namespace, pools + [p])
      == WantedNames(namespace, pools) + if WantsGroup(p) then {GroupName(namespace, p.name)} else {}
  {
    var more := pools + [p];
    assert forall q | q in more :: q in pools || q == p;
    assert forall q | q in pools :: q in more;
    assert p in more;
  }

  /** However far a call gets, names stay unique and no group is lost; a call that succeeds returns exactly the names of
      the pools that ask for a group, each with the id of an existing group of that name. New groups carry wanted
      names. */
  lemma {:induction false} EnsuringGroups(namespace: string, pools: seq<Pool>, down: set<GroupCall>, a: Resources)
    requires Valid(a) && UniqueGroups(a)
    ensures
      var g := Ensured(namespace, pools, down, a);
      && Valid(g.account) && UniqueGroups(g.account) && IdsExist(g) && GroupsGrow(a, g.account)
      && (g.ok ==> g.ids.Keys == WantedNames(namespace, pools))
      && (forall id | id in g.account.groups && id !in a.groups ::
            g.account.groups[id].name in WantedNames(namespace, pools))
  {
    if pools == [] {
    } else {
      var i := |pools| - 1;
      EnsuringGroups(namespace, pools[..i], down, a);
      var g := Ensured(namespace, pools[..i], down, a);
      assert pools == pools[..i] + [pools[i]];
      WantedSplit(namespace, pools[..i], pools[i]);
      if g.ok {
        OneStep(namespace, pools[i], i, down, g);
      }
    }
  }

  /** The name has a group. */
  ghost predicate HasGroup(a: Resources, name: string) {
    exists id | id in a.groups :: a.groups[id].name == name
  }

  /** The pools that ask for a group, and the names they ask for. */
  lemma WantedNamesExactly(namespace: string, pools: seq<Pool>, name: string)
    ensures
      name in WantedNames(namespace, pools) <==>
        exists p | p in pools ::
          p.providerConfig.Decoded? && p.providerConfig.value != "" && name == namespace + "-" + p.name
  {
  }

  /** The name had a group, or an earlier pool of the same name has been given one. */
  ghost predicate HasGroupBy(namespace: string, pools: seq<Pool>, i: nat, a: Resources)
    requires i < |pools|
  {
    var name := GroupName(namespace, pools[i].name);
    HasGroup(a, name) || name in WantedNames(namespace, pools[..i])
  }

  /** Pool i causes no error. */
  ghost predicate PoolSucceeds(namespace: string, pools: seq<Pool>, i: nat, down: set<GroupCall>, a: Resources)
    requires i < |pools|
  {
    && !pools[i].providerConfig.Undecodable?
    && (pools[i].providerConfig.Decoded? && pools[i].providerConfig.value != "" ==>
          && GetByName(i) !in down
          && (Create(i) in down ==> HasGroupBy(namespace, pools, i, a)))
  }

  lemma HasGroupAfter(namespace: string, pools: seq<Pool>, down: set<GroupCall>, a: Resources, name: string)
    requires Valid(a) && UniqueGroups(a) && Ensured(namespace, pools, down, a).ok
    ensures
      HasGroup(Ensured(namespace, pools, down, a).account, name) <==>
        HasGroup(a, name) || name in WantedNames(namespace, pools)
  {
    EnsuringGroups(namespace, pools, down, a);
    var g := Ensured(namespace, pools, down, a);
    if HasGroup(a, name) {
      var id :| id in a.groups && a.groups[id].name == name;
      assert g.account.groups[id] == a.groups[id];
      assert HasGroup(g.account, name);
    }
    if name in WantedNames(namespace, pools) {
      var id := g.ids[name];
      assert id in g.account.groups && g.account.groups[id].name == name;
      assert HasGroup(g.account, name);
    }
    if HasGroup(g.account, name) {
      var id :| id in g.account.groups && g.account.groups[id].name == name;
      if id in a.groups {
        assert g.account.groups[id] == a.groups[id];
        assert HasGroup(a, name);
      } else {
        assert g.account.groups[id].name in WantedNames(namespace, pools);
      }
    }
  }

  lemma OneSucceedsIff(namespace: string, p: Pool, i: nat, down: set<GroupCall>, g: GroupStep)
    requires g.ok
    ensures
      OneEnsured(namespace, p, i, down, g).ok <==>
        && !p.providerConfig.Undecodable?
        && (p.providerConfig.Decoded? && p.providerConfig.value != "" ==>
              GetByName(i) !in down && (Create(i) in down ==> HasGroup(g.account, GroupName(namespace, p.name))))
  {
    FoundIffHere(g.account, GroupName(namespace, p.name));
  }

  lemma LastSucceedsIff(namespace: string, pools: seq<Pool>, down: set<GroupCall>, a: Resources)
    requires Valid(a) && UniqueGroups(a) && pools != []
    requires Ensured(namespace, pools[..|pools| - 1], down, a).ok
    ensures Ensured(namespace, pools, down, a).ok <==> PoolSucceeds(namespace, pools, |pools| - 1, down, a)
  {
    var n := |pools| - 1;
    HasGroupAfter(namespace, pools[..n], down, a, GroupName(namespace, pools[n].name));
    OneSucceedsIff(namespace, pools[n], n, down, Ensured(namespace, pools[..n], down, a));
  }

  /** Ensuring succeeds exactly if every configuration can be decoded and, for every pool that asks for a group, the
      lookup works and so does the creation, unless the name has a group already. */
  lemma {:induction false} EnsuringSucceedsIff(namespace: string, pools: seq<Pool>, down: set<GroupCall>, a: Resources)
    requires Valid(a) && UniqueGroups(a)
    ensures
      Ensured(namespace, pools, down, a).ok <==>
        forall i | 0 <= i < |pools| :: PoolSucceeds(namespace, pools, i, down, a)
  {
    if pools == [] {
    } else {
      var n := |pools| - 1;
      var front := pools[..n];
      EnsuringSucceedsIff(namespace, front, down, a);
      forall i | 0 <= i < n
        ensures PoolSucceeds(namespace, front, i, down, a) <==> PoolSucceeds(namespace, pools, i, down, a)
      {
        assert front[..i] == pools[..i];
      }
      if Ensured(namespace, front, down, a).ok {
        LastSucceedsIff(namespace, pools, down, a);
      }
    }
  }

  lemma {:induction false} PrefixGrows(namespace: string, pools: seq<Pool>, down: set<GroupCall>, a: Resources, k: nat)
    requires Valid(a) && UniqueGroups(a) && k <= |pools|
    ensures GroupsGrow(Ensured(namespace, pools[..k], down, a).account, Ensured(namespace, pools, down, a).account)
  {
    if k == |pools| {
      assert pools[..k] == pools;
    } else {
      var n := |pools| - 1;
      assert pools[..n][..k] == pools[..k];
      PrefixGrows(namespace, pools[..n], down, a, k);
      EnsuringGroups(namespace, pools[..n], down, a);
      OneStep(namespace, pools[n], n, down, Ensured(namespace, pools[..n], down, a));
    }
  }

  /** A call that fails has dealt with the pools before the one it failed at: each of them that asks for a group has
      it. */
  lemma GroupsBeforeFailure(namespace: string, pools: seq<Pool>, down: set<GroupCall>, a: Resources, i: nat)
    requires Valid(a) && UniqueGroups(a) && i < |pools|
    requires forall j | 0 <= j <= i :: PoolSucceeds(namespace, pools, j, down, a)
    requires pools[i].providerConfig.Decoded? && pools[i].providerConfig.value != ""
    ensures HasGroup(Ensured(namespace, pools, down, a).account, namespace + "-" + pools[i].name)
  {
    var front := pools[..i + 1];
    forall j | 0 <= j <= i ensures PoolSucceeds(namespace, front, j, down, a) {
      assert front[..j] == pools[..j];
      assert PoolSucceeds(namespace, pools, j, down, a);
    }
    EnsuringSucceedsIff(namespace, front, down, a);
    var name := GroupName(namespace, pools[i].name);
    assert front[i] in front && name in WantedNames(namespace, front);
    HasGroupAfter(namespace, front, down, a, name);
    PrefixGrows(namespace, pools, down, a, i + 1);
    var early := Ensured(namespace, front, down, a).account;
    var id :| id in early.groups && early.groups[id].name == name;
    assert Ensured(namespace, pools, down, a).account.groups[id] == early.groups[id];
  }

  /** A success after any earlier attempts reuses what they made: a name that already had a group gets that very id. */
  lemma RetriesReuse(namespace: string, pools: seq<Pool>, down: set<GroupCall>, a: Resources, id: int)
    requires Valid(a) && UniqueGroups(a) && id in a.groups
    ensures
      var g := Ensured(namespace, pools, down, a);
      a.groups[id].name in g.ids ==> g.ids[a.groups[id].name] == id
  {
    EnsuringGroups(namespace, pools, down, a);
  }

  datatype Attempt = Attempt(pools: seq<Pool>, down: set<GroupCall>)

  function Attempts(namespace: string, attempts: seq<Attempt>, a: Resources): Resources {
    if attempts == [] then a
    else Attempts(namespace, attempts[1..], Ensured(namespace, attempts[0].pools, attempts[0].down, a).account)
  }

  /** Over any run of failures, retries and changing pools, no name ever has two groups and no group is deleted. */
  lemma {:induction false} RunsKeepGroups(namespace: string, attempts: seq<Attempt>, a: Resources)
    requires Valid(a) && UniqueGroups(a)
    ensures
      var after := Attempts(namespace, attempts, a);
      Valid(after) && UniqueGroups(after) && GroupsGrow(a, after)
  {
    if attempts == [] {
    } else {
      EnsuringGroups(namespace, attempts[0].pools, attempts[0].down, a);
      RunsKeepGroups(namespace, attempts[1..], Ensured(namespace, attempts[0].pools, attempts[0].down, a).account);
    }
  }

  /** Machine classes generated with the status of a successful hook carry a placement group exactly for the pools whose
      name asks for one, and that group exists under the pool's name. */
  lemma ClassesUseTheirGroups(
      h: Hashes, spec: WorkerSpec, src: Sources, down: set<GroupCall>, a: Resources, p: nat, z: nat)
    requires Valid(a) && UniqueGroups(a) && Ensured(spec.namespace, spec.pools, down, a).ok
    requires Generated(h, spec, src, Decoded.Decoded(Ensured(spec.namespace, spec.pools, down, a).ids)).Some?
    requires p < |spec.pools| && PoolZones(src, spec.region, spec.pools[p]).Some?
    requires z < |PoolZones(src, spec.region, spec.pools[p]).value|
    ensures
      var g := Ensured(spec.namespace, spec.pools, down, a);
      var generation := Generated(h, spec, src, Decoded.Decoded(g.ids)).value;
      var k := SumOfZones(ResolveAll(src, spec.region, spec.pools).value[..p]) + z;
      var name := GroupName(spec.namespace, spec.pools[p].name);
      && k < |generation.classes|
      && var id := generation.classes[k].placementGroupID;
      && (id.Some? <==> name in WantedNames(spec.namespace, spec.pools))
      && (id.Some? ==> id.value in g.account.groups && g.account.groups[id.value].name == name)
  {
    EnsuringGroups(spec.namespace, spec.pools, down, a);
    GeneratedEntry(h, spec, src, Decoded.Decoded(Ensured(spec.namespace, spec.pools, down, a).ids), p, z);
  }

  // ---------- deleting ----------

  function WithoutGroups(a: Resources, ids: set<int>): Resources {
    a.(groups := a.groups - ids)
  }

  method EnsurePlacementGroupDeleted(client: Client, id: int, i: nat, down: set<GroupCall>) returns (ok: bool)
    modifies client
    ensures ok <==> id == 0 || (GetById(i) !in down && (DeleteById(i) in down ==> id !in old(client.groups)))
    ensures client.View() == if ok && id != 0 then WithoutGroups(old(client.View()), {id}) else old(client.View())
  {
    if id != 0 {
      var found := client.GetGroupById(id, GetById(i) in down);
      if found.Unavailable? {
        return false;
      }
      if found.value {
        ok := client.DeleteGroup(id, DeleteById(i) in down);
        return ok;
      }
      assert old(client.groups) - {id} == old(client.groups);
    }
    return true;
  }

  /** The ids the status records under the names of the pools. */
  function Recorded(namespace: string, pools: seq<Pool>, ids: map<string, int>): set<int> {
    set p | p in pools && GroupName(namespace, p.name) in ids :: ids[GroupName(namespace, p.name)]
  }

  /** The ids the hook passes to the deleter and the deleter does not ignore. */
  function Doomed(namespace: string, pools: seq<Pool>, ids: map<string, int>, deleting: bool): set<int> {
    if deleting then Recorded(namespace, pools, ids) - {0} else {}
  }

  lemma DoomedSplit(namespace: string, pools: seq<Pool>, p: Pool, ids: map<string, int>, deleting: bool)
    ensures
      var name := GroupName(namespace, p.name);
      Doomed(namespace, pools + [p], ids, deleting) == Doomed(namespace, pools, ids, deleting)
        + if deleting && name in ids && ids[name] != 0 then {ids[name]} else {}
  {
    var more := pools + [p];
    assert forall q | q in more :: q in pools || q == p;
    assert forall q | q in pools :: q in more;
    assert p in more;
  }

  /** Deleting the group of pool i fails, after those of the pools before it have been deleted. */
  predicate DeletionFails(
      namespace: string, pools: seq<Pool>, ids: map<string, int>, deleting: bool, down: set<GroupCall>, a: Resources,
      i: nat)
    requires i < |pools|
  {
    var name := GroupName(namespace, pools[i].name);
    && deleting && name in ids && ids[name] != 0
    && (GetById(i) in down
        || (DeleteById(i) in down && ids[name] in a.groups - Doomed(namespace, pools[..i], ids, deleting)))
  }

  /** Success removes every group recorded under a current pool when the Worker is being deleted, and nothing otherwise:
      a pool the status does not know looks up id 0. The first deletion that fails ends it, with the pools before dealt
      with. */
  method PostDeleteHook(
      client: Client, namespace: string, pools: seq<Pool>, status: Decoded<map<string, int>>, deleting: bool,
      down: set<GroupCall>)
    returns (ok: bool)
    modifies client
    ensures
      var ids := if status.Decoded? then status.value else map[];
      var a := old(client.View());
      && (ok <==> !status.Undecodable? && forall i | 0 <= i < |pools| ::
            !DeletionFails(namespace, pools, ids, deleting, down, a, i))
      && (ok ==> client.View() == WithoutGroups(a, Doomed(namespace, pools, ids, deleting)))
      && (!ok && !status.Undecodable? ==> exists k ::
            && 0 <= k < |pools| && DeletionFails(namespace, pools, ids, deleting, down, a, k)
            && (forall i | 0 <= i < k :: !DeletionFails(namespace, pools, ids, deleting, down, a, i))
            && client.View() == WithoutGroups(a, Doomed(namespace, pools[..k], ids, deleting)))
      && (status.Undecodable? ==> client.View() == a)
  {
    if status.Undecodable? {
      return false;
    }
    var ids := Ids(status);
    ghost var a := client.View();
    for i := 0 to |pools|
      invariant client.View() == WithoutGroups(a, Doomed(namespace, pools[..i], ids, deleting))
      invariant forall j | 0 <= j < i :: !DeletionFails(namespace, pools, ids, deleting, down, a, j)
    {
      var deletePlacementGroup := deleting;
      var name := GroupName(namespace, pools[i].name);
      if name !in ids {
        deletePlacementGroup := true;
      }
      assert pools[..i + 1] == pools[..i] + [pools[i]];
      DoomedSplit(namespace, pools[..i], pools[i], ids, deleting);
      if deletePlacementGroup {
        var deleted := EnsurePlacementGroupDeleted(client, if name in ids then ids[name] else 0, i, down);
        if !deleted {
          assert DeletionFails(namespace, pools, ids, deleting, down, a, i);
          return false;
        }
      }
      assert !DeletionFails(namespace, pools, ids, deleting, down, a, i);
    }
    assert pools[..|pools|] == pools;
    return true;
  }

  /** Some pool has this group name, whether or not it asks for a group. */
  ghost predicate Names(namespace: string, pools: seq<Pool>, name: string) {
    exists p | p in pools :: GroupName(namespace, p.name) == name
  }

  // ---------- the groups over the life of a Worker ----------

  /** One hook before a reconciliation, as far as it gets to the groups: the pools of that time, the calls that are
      down, and whether the status can be patched. */
  datatype Hook = Hook(pools: seq<Pool>, down: set<GroupCall>, patchable: bool)

  /** The account, and the ids by name the status records; none before the first status is written. */
  datatype GroupState = GroupState(account: Resources, ids: map<string, int>)

  function Hooked(namespace: string, h: Hook, g: GroupState): GroupState {
    var step := Ensured(namespace, h.pools, h.down, g.account);
    GroupState(step.account, if step.ok && h.patchable then step.ids else g.ids)
  }

  function HookRun(namespace: string, hooks: seq<Hook>, g: GroupState): GroupState {
    if hooks == [] then g else HookRun(namespace, hooks[1..], Hooked(namespace, hooks[0], g))
  }

  /** No name has two groups, and the status records the wanted names with the ids of their groups. */
  ghost predicate Consistent(g: GroupState, wanted: set<string>) {
    && Valid(g.account) && UniqueGroups(g.account)
    && g.ids.Keys == wanted
    && (forall n | n in g.ids :: g.ids[n] in g.account.groups && g.account.groups[g.ids[n]].name == n)
  }

  /** The names the status records after a hook. */
  function WantedAfter(namespace: string, h: Hook, g: GroupState, wanted: set<string>): set<string> {
    if Ensured(namespace, h.pools, h.down, g.account).ok && h.patchable then WantedNames(namespace, h.pools) else wanted
  }

  /** The names wanted by the pools for which the status was last written. */
  function LastWanted(namespace: string, hooks: seq<Hook>, g: GroupState, wanted: set<string>): set<string> {
    if hooks == [] then wanted
    else
      LastWanted(namespace, hooks[1..], Hooked(namespace, hooks[0], g), WantedAfter(namespace, hooks[0], g, wanted))
  }

  lemma HookKeepsConsistent(namespace: string, h: Hook, g: GroupState, wanted: set<string>)
    requires Consistent(g, wanted)
    ensures Consistent(Hooked(namespace, h, g), WantedAfter(namespace, h, g, wanted))
    ensures GroupsGrow(g.account, Hooked(namespace, h, g).account)
  {
    EnsuringGroups(namespace, h.pools, h.down, g.account);
    var after := Hooked(namespace, h, g);
    assert GroupsGrow(g.account, after.account);
    forall n | n in g.ids ensures g.ids[n] in after.account.groups && after.account.groups[g.ids[n]].name == n {
      var id := g.ids[n];
      assert id in g.account.groups && g.account.groups[id].name == n;
      assert after.account.groups[id] == g.account.groups[id];
    }
  }

  lemma {:induction false} HooksKeepConsistent(
      namespace: string, hooks: seq<Hook>, g: GroupState, wanted: set<string>)
    requires Consistent(g, wanted)
    ensures Consistent(HookRun(namespace, hooks, g), LastWanted(namespace, hooks, g, wanted))
    ensures GroupsGrow(g.account, HookRun(namespace, hooks, g).account)
  {
    if hooks == [] {
    } else {
      HookKeepsConsistent(namespace, hooks[0], g, wanted);
      HooksKeepConsistent(
        namespace, hooks[1..], Hooked(namespace, hooks[0], g), WantedAfter(namespace, hooks[0], g, wanted));
    }
  }

  lemma SurvivesIff(namespace: string, now: seq<Pool>, g: GroupState, wanted: set<string>, id: int)
    requires Consistent(g, wanted) && id in g.account.groups
    ensures
      var name := g.account.groups[id].name;
      id in g.account.groups - Doomed(namespace, now, g.ids, true) <==> !(name in wanted && Names(namespace, now, name))
  {
    var name := g.account.groups[id].name;
    if name in wanted && Names(namespace, now, name) {
      var p :| p in now && GroupName(namespace, p.name) == name;
      assert g.ids[name] == id;
      assert id in Recorded(namespace, now, g.ids);
    }
  }

  /** Any run of hooks, whichever of them fail and wherever, and then a deletion of the Worker with the pools of that
      time: a group survives it exactly unless its name was wanted when the status was last written and belongs to a
      pool now. When no status was ever written, wanted is empty to begin with and stays so, and every group
      survives. */
  lemma DroppedGroupLeaks(
      namespace: string, hooks: seq<Hook>, now: seq<Pool>, g: GroupState, wanted: set<string>, id: int)
    requires Consistent(g, wanted) && id in HookRun(namespace, hooks, g).account.groups
    ensures
      var later := HookRun(namespace, hooks, g);
      var name := later.account.groups[id].name;
      id in later.account.groups - Doomed(namespace, now, later.ids, true) <==>
        !(name in LastWanted(namespace, hooks, g, wanted) && Names(namespace, now, name))
  {
    HooksKeepConsistent(namespace, hooks, g, wanted);
    SurvivesIff(namespace, now, HookRun(namespace, hooks, g), LastWanted(namespace, hooks, g, wanted), id);
  }

  /** A group is from before exactly if its name had a group before. */
  lemma OldGroupIff(a: Resources, later: Resources, id: int)
    requires UniqueGroups(later) && GroupsGrow(a, later) && id in later.groups
    ensures id in a.groups <==> HasGroup(a, later.groups[id].name)
  {
    if i :| i in a.groups && a.groups[i].name == later.groups[id].name {
      assert i == id;
    }
  }

  /** The names whose groups the deletion removes are those that got their group in the meantime. */
  ghost predicate RemovesWhatWasAdded(
      namespace: string, now: seq<Pool>, a: Resources, later: Resources, wanted: set<string>)
  {
    forall n | HasGroup(later, n) :: HasGroup(a, n) <==> !(n in wanted && Names(namespace, now, n))
  }

  lemma RemovedIffAdded(namespace: string, now: seq<Pool>, a: Resources, later: GroupState, wanted: set<string>)
    requires Consistent(later, wanted) && GroupsGrow(a, later.account)
    ensures
      later.account.groups - Doomed(namespace, now, later.ids, true) == a.groups <==>
        RemovesWhatWasAdded(namespace, now, a, later.account, wanted)
  {
    var after := later.account.groups - Doomed(namespace, now, later.ids, true);
    forall id | id in later.account.groups
      ensures id in after <==>
        !(later.account.groups[id].name in wanted && Names(namespace, now, later.account.groups[id].name))
      ensures id in a.groups <==> HasGroup(a, later.account.groups[id].name)
    {
      SurvivesIff(namespace, now, later, wanted, id);
      OldGroupIff(a, later.account, id);
    }
    if RemovesWhatWasAdded(namespace, now, a, later.account, wanted) {
      forall id | id in later.account.groups ensures id in after <==> id in a.groups {
        assert HasGroup(later.account, later.account.groups[id].name);
      }
      forall id | id in a.groups ensures id in after && after[id] == a.groups[id] {
        assert id in later.account.groups;
      }
      assert after.Keys == a.groups.Keys;
    }
  }

  /** Any run of hooks followed by the deletion of the Worker gives back the groups from before exactly if, of the names
      that have a group then, the ones that had none before are those that were wanted when the status was last written
      and belong to a pool at the deletion. */
  lemma GroupLifecycle(namespace: string, hooks: seq<Hook>, now: seq<Pool>, g: GroupState, wanted: set<string>)
    requires Consistent(g, wanted)
    ensures
      var later := HookRun(namespace, hooks, g);
      later.account.groups - Doomed(namespace, now, later.ids, true) == g.account.groups <==>
        RemovesWhatWasAdded(namespace, now, g.account, later.account, LastWanted(namespace, hooks, g, wanted))
  {
    HooksKeepConsistent(namespace, hooks, g, wanted);
    RemovedIffAdded(namespace, now, g.account, HookRun(namespace, hooks, g), LastWanted(namespace, hooks, g, wanted));
  }

  // ---------- the hook before a reconciliation ----------

  datatype ServerLocation = ServerLocation(available: bool, location: Option<string>)
  datatype ServerType = ServerType(name: string, locations: seq<ServerLocation>)

  /** Server types by name; a later entry wins. */
  function ByName(types: seq<ServerType>): map<string, ServerType> {
    if types == [] then map[] else ByName(types[..|types| - 1])[types[|types| - 1].name := types[|types| - 1]]
  }

  predicate AvailableIn(t: ServerType, location: string) {
    exists l | l in t.locations :: l.available && l.location == Some(location)
  }

  /** The pool has zones and its server type is available in the location of the first one. */
  predicate PoolAvailable(src: Sources, region: string, types: seq<ServerType>, p: Pool) {
    && PoolZones(src, region, p).Some?
    && p.machineType in ByName(types)
    && AvailableIn(ByName(types)[p.machineType], GetRegionFromZone(PoolZones(src, region, p).value[0]))
  }

  /** Server type i is the last one of that name. */
  ghost predicate IsLastType(types: seq<ServerType>, name: string, i: int) {
    0 <= i < |types| && types[i].name == name && forall j | i < j < |types| :: types[j].name != name
  }

  lemma {:induction false} ByNameAt(types: seq<ServerType>, name: string, i: nat)
    requires IsLastType(types, name, i)
    ensures name in ByName(types) && ByName(types)[name] == types[i]
  {
    var n := |types| - 1;
    if i == n {
    } else {
      assert IsLastType(types[..n], name, i);
      ByNameAt(types[..n], name, i);
    }
  }

  lemma {:induction false} ByNameFrom(types: seq<ServerType>, name: string) returns (i: nat)
    requires name in ByName(types)
    ensures IsLastType(types, name, i)
  {
    var n := |types| - 1;
    if types[n].name == name {
      i := n;
    } else {
      i := ByNameFrom(types[..n], name);
    }
  }

  /** The pool's zones are known, and the last server type listed under its machine type is available in a location
      named like the part of the first zone before its first dash. */
  ghost predicate InStock(src: Sources, region: string, types: seq<ServerType>, p: Pool) {
    && PoolZones(src, region, p).Some?
    && exists i | IsLastType(types, p.machineType, i) ::
         exists l | l in types[i].locations ::
           && l.available && l.location.Some?
           && BeforeDash(l.location.value, PoolZones(src, region, p).value[0])
  }

  lemma InStockIff(src: Sources, region: string, types: seq<ServerType>, p: Pool)
    ensures PoolAvailable(src, region, types, p) <==> InStock(src, region, types, p)
  {
    forall i: nat | IsLastType(types, p.machineType, i)
      ensures p.machineType in ByName(types) && ByName(types)[p.machineType] == types[i]
    {
      ByNameAt(types, p.machineType, i);
    }
    if p.machineType in ByName(types) {
      var i := ByNameFrom(types, p.machineType);
    }
    var zones := PoolZones(src, region, p);
    if zones.Some? {
      forall location: string
        ensures BeforeDash(location, zones.value[0]) <==> location == GetRegionFromZone(zones.value[0])
      {
        RegionIff(location, zones.value[0]);
      }
    }
  }

  method IsAvailable(t: ServerType, location: string) returns (available: bool)
    ensures available == AvailableIn(t, location)
  {
    for i := 0 to |t.locations|
      invariant forall j | 0 <= j < i :: !(t.locations[j].available && t.locations[j].location == Some(location))
    {
      var l := t.locations[i];
      if l.available && l.location.Some? && l.location.value == location {
        return true;
      }
    }
    return false;
  }

  method IndexTypes(types: seq<ServerType>) returns (m: map<string, ServerType>)
    ensures m == ByName(types)
  {
    m := map[];
    for i := 0 to |types|
      invariant m == ByName(types[..i])
    {
      assert types[..i + 1][..i] == types[..i];
      m := m[types[i].name := types[i]];
    }
    assert types[..|types|] == types;
  }

  method CheckPools(src: Sources, region: string, types: seq<ServerType>, pools: seq<Pool>) returns (available: bool)
    ensures available <==> forall p | p in pools :: InStock(src, region, types, p)
  {
    forall p | p in pools ensures PoolAvailable(src, region, types, p) <==> InStock(src, region, types, p) {
      InStockIff(src, region, types, p);
    }
    var serverTypesByName := IndexTypes(types);
    for i := 0 to |pools|
      invariant forall j | 0 <= j < i :: PoolAvailable(src, region, types, pools[j])
    {
      var pool := pools[i];
      assert pool in pools;
      var zones := PoolZones(src, region, pool);
      if zones.None? {
        return false;
      }
      var locationName := GetRegionFromZone(zones.value[0]);
      if pool.machineType !in serverTypesByName {
        return false;
      }
      var machineTypeAvailable := IsAvailable(serverTypesByName[pool.machineType], locationName);
      if !machineTypeAvailable {
        return false;
      }
    }
    return true;
  }

  /** The machine classes get their templates before any check that can fail; groups are ensured only after every pool
      has been found available; the status changes only when everything succeeded, and then records exactly the groups
      of the current pools. */
  method PreReconcileHook(
      delegate: WorkerDelegate, store: NT.MachineClassStore, client: Client, worker: WorkerResource, src: Sources,
      listable: bool, vanishing: nat -> set<string>, failing: set<string>, types: Option<seq<ServerType>>,
      patchable: bool, down: set<GroupCall>)
    returns (ok: bool, ghost names: seq<string>)
    modifies store, client, worker
    ensures
      var profile := NT.Profile(src.machineTypes, delegate.spec.region);
      var cached := old(delegate.machineClasses);
      var wanted := if cached.None? then {} else set c | c in cached.value :: c.name;
      var b := NT.Backfill(profile, wanted, old(store.classes), names, vanishing, failing);
      && (listable ==> NT.IsListing(names, old(store.classes)))
      && (!listable ==> store.classes == old(store.classes) && store.patches == old(store.patches))
      && (listable && b.Completes() ==>
            && store.classes == NT.Backfilled(profile, b.wanted, b.before - b.Vanished(|names|))
            && store.patches == old(store.patches) + b.Log(|names|))
      && (listable && !b.Completes() ==> exists i ::
            NT.Stopped(b, i, store.classes, old(store.patches), store.patches))
    ensures
      var spec := delegate.spec;
      var b := NT.Backfill(NT.Profile(src.machineTypes, spec.region), old(delegate.Wanted()), old(store.classes), names,
        vanishing, failing);
      var checked :=
        && listable && b.Completes() && types.Some?
        && forall p | p in spec.pools :: InStock(src, spec.region, types.value, p);
      var g := Ensured(spec.namespace, spec.pools, down, old(client.View()));
      && client.View() == (if checked then g.account else old(client.View()))
      && ok == (checked && g.ok && !old(worker.providerStatus).Undecodable? && patchable)
      && worker.providerStatus == (if ok then Decoded.Decoded(g.ids) else old(worker.providerStatus))
      // so a hook that gets to the groups is one step of a HookRun
      && (checked && !old(worker.providerStatus).Undecodable? ==>
            GroupState(client.View(), Ids(worker.providerStatus)) ==
              Hooked(spec.namespace, Hook(spec.pools, down, patchable),
                GroupState(old(client.View()), Ids(old(worker.providerStatus)))))
  {
    var spec := delegate.spec;
    ok, names := NT.BackfillNodeTemplates(
      store, NT.Profile(src.machineTypes, spec.region), delegate.Wanted(), listable, vanishing, failing);
    if !ok {
      return false, names;
    }
    if types.None? {
      return false, names;
    }
    var available := CheckPools(src, spec.region, types.value, spec.pools);
    if !available {
      return false, names;
    }
    var ids;
    ids, ok := EnsurePlacementGroups(client, spec.namespace, spec.pools, down);
    if !ok {
      return false, names;
    }
    if worker.providerStatus.Undecodable? {
      return false, names;
    }
    if !patchable {
      return false, names;
    }
    worker.providerStatus := Decoded.Decoded(ids);
    return true, names;
  }
}
