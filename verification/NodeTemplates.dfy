/** Node templates of machine classes: built for new classes, added to old ones that lack them. */
module NodeTemplates {
  import opened Wrappers

  /** Quantities are opaque; the empty one is zero. */
  type Quantity = string
  type ResourceList = map<string, Quantity>

  datatype MachineType = MachineType(
    name: string, cpu: Quantity, gpu: Quantity, memory: Quantity, architecture: Option<string>)

  datatype PoolTemplate = PoolTemplate(capacity: ResourceList, virtualCapacity: ResourceList)

  datatype NodeTemplate = NodeTemplate(
    capacity: ResourceList,
    virtualCapacity: Option<ResourceList>,
    instanceType: string,
    region: string,
    zone: string,
    architecture: string)

  const DEFAULT_ARCHITECTURE: string := "amd64"

  /** The machine type of that name the cloud profile lists first. */
  function FindMachineType(types: seq<MachineType>, name: string): (r: Option<MachineType>)
    ensures r.Some? ==> r.value in types && r.value.name == name
    ensures r.None? ==> forall t | t in types :: t.name != name
  {
    if types == [] then None
    else if types[0].name == name then Some(types[0])
    else FindMachineType(types[1..], name)
  }

  /** Machine type i is the first one of that name. */
  ghost predicate IsFirstType(types: seq<MachineType>, name: string, i: int) {
    0 <= i < |types| && types[i].name == name && forall j | 0 <= j < i :: types[j].name != name
  }

  /** Of several machine types of one name the first one counts. */
  lemma {:induction false} FirstMachineType(types: seq<MachineType>, name: string, i: nat)
    requires IsFirstType(types, name, i)
    ensures FindMachineType(types, name) == Some(types[i])
  {
    if i == 0 {
    } else {
      FirstMachineType(types[1..], name, i - 1);
    }
  }

  /** Capacity as the cloud profile declares it; all zero without a machine type. */
  function MachineTypeCapacity(t: Option<MachineType>): ResourceList {
    if t.Some? then map["cpu" := t.value.cpu, "gpu" := t.value.gpu, "memory" := t.value.memory]
    else map["cpu" := "", "gpu" := "", "memory" := ""]
  }

  /** The template of a pool: the pool's own capacity is laid over the machine type's. */
  function PoolNodeTemplate(
      machineType: string, architecture: Option<string>, own: Option<PoolTemplate>, t: Option<MachineType>,
      region: string, zone: string): NodeTemplate
  {
    NodeTemplate(
      if own.Some? then MachineTypeCapacity(t) + own.value.capacity else MachineTypeCapacity(t),
      if own.Some? && own.value.virtualCapacity != map[] then Some(own.value.virtualCapacity) else None,
      machineType, region, zone,
      if architecture.Some? then architecture.value else DEFAULT_ARCHITECTURE)
  }

  /** What the machine controller requires of a template. */
  predicate Complete(t: NodeTemplate) {
    {"cpu", "gpu", "memory"} <= t.capacity.Keys
  }

  /** The template of a pool whose machine type is listed: cpu, gpu and memory are those of the pool where it has them
      and of the machine type where it does not, and nothing but the pool adds to them. */
  lemma PoolTemplateExactly(
      machineType: string, architecture: Option<string>, own: Option<PoolTemplate>, t: MachineType,
      region: string, zone: string)
    ensures
      var r := PoolNodeTemplate(machineType, architecture, own, Some(t), region, zone);
      var mine := if own.Some? then own.value.capacity else map[];
      && Complete(r) && r.capacity.Keys == {"cpu", "gpu", "memory"} + mine.Keys
      && (forall k | k in mine :: r.capacity[k] == mine[k])
      && ("cpu" !in mine ==> r.capacity["cpu"] == t.cpu)
      && ("gpu" !in mine ==> r.capacity["gpu"] == t.gpu)
      && ("memory" !in mine ==> r.capacity["memory"] == t.memory)
      && r.virtualCapacity ==
         (if own.None? || own.value.virtualCapacity == map[] then None else Some(own.value.virtualCapacity))
      && r.architecture == (if architecture.None? then "amd64" else architecture.value)
      && r.instanceType == machineType && r.region == region && r.zone == zone
  {
  }

  // ---------- backfilling ----------

  datatype ProviderSpec = ProviderSpec(serverType: string, zone: string)

  /** A stored machine class; rest stands for every field this model does not name. */
  datatype MachineClass = MachineClass(
    providerSpec: Decoded<ProviderSpec>, nodeTemplate: Option<NodeTemplate>, rest: string)

  datatype Profile = Profile(machineTypes: seq<MachineType>, region: string)

  /** The template a class gets: none when it has one or none can be derived. */
  function Derived(p: Profile, c: MachineClass): Option<NodeTemplate> {
    if c.nodeTemplate.Some? || !c.providerSpec.Decoded?
       || c.providerSpec.value.serverType == "" || c.providerSpec.value.zone == "" then None
    else
      var t := FindMachineType(p.machineTypes, c.providerSpec.value.serverType);
      Some(NodeTemplate(MachineTypeCapacity(t), None, c.providerSpec.value.serverType,
        p.region, c.providerSpec.value.zone,
        if t.Some? && t.value.architecture.Some? then t.value.architecture.value else DEFAULT_ARCHITECTURE))
  }

  predicate Needs(p: Profile, wanted: set<string>, name: string, c: MachineClass) {
    name !in wanted && Derived(p, c).Some?
  }

  function Patched(p: Profile, wanted: set<string>, name: string, c: MachineClass): MachineClass {
    if Needs(p, wanted, name, c) then c.(nodeTemplate := Derived(p, c)) else c
  }

  function Backfilled(p: Profile, wanted: set<string>, classes: map<string, MachineClass>): map<string, MachineClass> {
    map n | n in classes :: Patched(p, wanted, n, classes[n])
  }

  function Needing(p: Profile, wanted: set<string>, classes: map<string, MachineClass>): set<string> {
    set n | n in classes && Needs(p, wanted, n, classes[n])
  }

  /** What a completed backfill means: whoever could get a template has a complete one, everybody keeps everything
      else, and there is nothing left to do. */
  lemma BackfillCompletes(p: Profile, wanted: set<string>, classes: map<string, MachineClass>)
    ensures
      var after := Backfilled(p, wanted, classes);
      && after.Keys == classes.Keys
      && (forall n | n in classes ::
            && after[n].providerSpec == classes[n].providerSpec && after[n].rest == classes[n].rest
            && (classes[n].nodeTemplate.Some? || n in wanted ==> after[n] == classes[n])
            && (n !in wanted && classes[n].providerSpec.Decoded?
                && classes[n].providerSpec.value.serverType != "" && classes[n].providerSpec.value.zone != "" ==>
                  after[n].nodeTemplate.Some?)
            && (classes[n].nodeTemplate.None? && after[n].nodeTemplate.Some? ==>
                  && Complete(after[n].nodeTemplate.value)
                  && n !in wanted && classes[n].providerSpec.Decoded?
                  && classes[n].providerSpec.value.serverType != "" && classes[n].providerSpec.value.zone != ""))
      && Needing(p, wanted, after) == {}
      && Backfilled(p, wanted, after) == after
  {
  }

  /** The template a class gets: region of the Worker, type and zone of the class, and what the first machine type of
      that name declares; without such a machine type all quantities are zero and the architecture is amd64. */
  lemma BackfilledTemplate(p: Profile, wanted: set<string>, classes: map<string, MachineClass>, n: string)
    requires n in classes && classes[n].nodeTemplate.None?
    requires Backfilled(p, wanted, classes)[n].nodeTemplate.Some?
    ensures
      var t := Backfilled(p, wanted, classes)[n].nodeTemplate.value;
      && classes[n].providerSpec.Decoded?
      && t.instanceType == classes[n].providerSpec.value.serverType && t.zone == classes[n].providerSpec.value.zone
      && t.region == p.region && t.virtualCapacity.None?
      && (forall i | IsFirstType(p.machineTypes, t.instanceType, i) ::
            var m := p.machineTypes[i];
            && t.capacity == map["cpu" := m.cpu, "gpu" := m.gpu, "memory" := m.memory]
            && t.architecture == (if m.architecture.None? then "amd64" else m.architecture.value))
      && ((forall m | m in p.machineTypes :: m.name != t.instanceType) ==>
            t.capacity == map["cpu" := "", "gpu" := "", "memory" := ""] && t.architecture == "amd64")
  {
    var name := classes[n].providerSpec.value.serverType;
    forall i: nat | IsFirstType(p.machineTypes, name, i)
      ensures FindMachineType(p.machineTypes, name) == Some(p.machineTypes[i])
    {
      FirstMachineType(p.machineTypes, name, i);
    }
  }

  ghost function FirstNames(names: seq<string>, i: nat): set<string>
    requires i <= |names|
  {
    set j | 0 <= j < i :: names[j]
  }

  ghost predicate Distinct(names: seq<string>) {
    forall i, j | 0 <= i < j < |names| :: names[i] != names[j]
  }

  lemma NextName(names: seq<string>, i: nat)
    requires i < |names| && Distinct(names)
    ensures names[i] !in FirstNames(names, i)
    ensures FirstNames(names, i + 1) == FirstNames(names, i) + {names[i]}
  {
  }

  lemma AppendName(names: seq<string>, n: string)
    requires Distinct(names) && n !in FirstNames(names, |names|)
    ensures Distinct(names + [n])
    ensures FirstNames(names + [n], |names| + 1) == FirstNames(names, |names|) + {n}
  {
    var more := names + [n];
    forall j | 0 <= j < |names| ensures more[j] in FirstNames(names, |names|) {
      assert more[j] == names[j];
    }
    assert more[|names|] == n;
    forall m | m in FirstNames(names, |names|) ensures m in FirstNames(more, |more|) {
      var j :| 0 <= j < |names| && m == names[j];
      assert more[j] == m;
    }
  }

  /** The API server's machine classes, with a log of the classes that were patched. */
  class MachineClassStore {
    var classes: map<string, MachineClass>
    var patches: seq<string>

    constructor (initial: map<string, MachineClass>)
      ensures classes == initial && patches == []
    {
      classes, patches := initial, [];
    }

    /** Every class name once, in some order. */
    method List() returns (names: seq<string>)
      ensures FirstNames(names, |names|) == classes.Keys && Distinct(names)
    {
      names := [];
      var todo := classes.Keys;
      while todo != {}
        invariant todo <= classes.Keys && Distinct(names)
        invariant FirstNames(names, |names|) == classes.Keys - todo
        decreases todo
      {
        var n :| n in todo;
        AppendName(names, n);
        names := names + [n];
        todo := todo - {n};
      }
    }

    /** Other clients may delete classes at any time. */
    method DeletedByOthers(gone: set<string>)
      modifies this`classes
      ensures classes == old(classes) - gone
    {
      classes := classes - gone;
    }

    /** Creates or overwrites the classes a chart renders. */
    method Apply(rendered: map<string, MachineClass>)
      modifies this`classes
      ensures classes == old(classes) + rendered
    {
      classes := classes + rendered;
    }

    /** Sends the template alone; a class that is gone is not an error. */
    method PatchTemplate(name: string, t: NodeTemplate, failing: set<string>) returns (ok: bool)
      modifies this
      ensures ok == (name !in old(classes) || name !in failing)
      ensures ok && name in old(classes) ==>
        classes == old(classes)[name := old(classes)[name].(nodeTemplate := Some(t))]
        && patches == old(patches) + [name]
      ensures !ok || name !in old(classes) ==> classes == old(classes) && patches == old(patches)
    {
      if name !in classes {
        return true;
      }
      if name in failing {
        return false;
      }
      classes := classes[name := classes[name].(nodeTemplate := Some(t))];
      patches := patches + [name];
      return true;
    }
  }

  /** The classes when those in done have been dealt with. */
  function Progress(
      p: Profile, wanted: set<string>, before: map<string, MachineClass>, done: set<string>): map<string, MachineClass>
  {
    map n | n in before :: if n in done then Patched(p, wanted, n, before[n]) else before[n]
  }

  /** One round: the class is given a template unless it is to be skipped or has been deleted since the listing. */
  method BackfillOne(
      store: MachineClassStore, p: Profile, wanted: set<string>, name: string, listed: MachineClass,
      failing: set<string>,
      ghost before: map<string, MachineClass>, ghost done: set<string>)
    returns (ok: bool)
    requires name !in done && (name in before ==> before[name] == listed)
    requires store.classes == Progress(p, wanted, before, done)
    modifies store
    ensures ok <==> !(name in Needing(p, wanted, before) && name in failing)
    ensures store.classes == Progress(p, wanted, before, if ok then done + {name} else done)
    ensures store.patches == old(store.patches) + if ok && name in Needing(p, wanted, before) then [name] else []
  {
    var template := Derived(p, listed);
    if name in wanted || template.None? {
      assert Progress(p, wanted, before, done + {name}) == store.classes;
      return true;
    }
    ok := store.PatchTemplate(name, template.value, failing);
    assert ok ==> store.classes == Progress(p, wanted, before, done + {name});
  }

  lemma ProgressWithout(
      p: Profile, wanted: set<string>, before: map<string, MachineClass>, done: set<string>, gone: set<string>)
    ensures Progress(p, wanted, before, done) - gone == Progress(p, wanted, before - gone, done)
  {
  }

  /** Every class name once. */
  ghost predicate IsListing(names: seq<string>, classes: map<string, MachineClass>) {
    Distinct(names) && FirstNames(names, |names|) == classes.Keys
  }

  /** One call: the classes it lists and their order, the classes other clients delete just before each patch, and those
      whose patch is refused. */
  datatype Backfill = Backfill(
    p: Profile, wanted: set<string>, before: map<string, MachineClass>, names: seq<string>,
    vanishing: nat -> set<string>, failing: set<string>)
  {
    /** What has been deleted by others in the first k rounds. */
    function Vanished(k: nat): set<string> {
      if k == 0 then {} else Vanished(k - 1) + vanishing(k - 1)
    }

    /** Round i patches: the class needs a template and is still there. */
    predicate Patches(i: nat)
      requires i < |names|
    {
      names[i] in Needing(p, wanted, before) && names[i] !in Vanished(i + 1)
    }

    predicate Refused(i: nat)
      requires i < |names|
    {
      Patches(i) && names[i] in failing
    }

    ghost predicate RefusedNowhereBefore(k: nat)
      requires k <= |names|
    {
      forall i | 0 <= i < k :: !Refused(i)
    }

    ghost predicate Completes() {
      RefusedNowhereBefore(|names|)
    }

    /** The patches of the first k rounds, in order. */
    function Log(k: nat): seq<string>
      requires k <= |names|
    {
      if k == 0 then [] else Log(k - 1) + if Patches(k - 1) then [names[k - 1]] else []
    }

    /** The classes after k rounds, when m rounds of deletions have taken place. */
    ghost function After(k: nat, m: nat): map<string, MachineClass>
      requires k <= |names|
    {
      Progress(p, wanted, before - Vanished(m), FirstNames(names, k))
    }
  }

  lemma {:induction false} VanishedGrows(b: Backfill, k: nat, m: nat)
    requires k <= m
    ensures b.Vanished(k) <= b.Vanished(m)
  {
    if k == m {
    } else {
      VanishedGrows(b, k, m - 1);
    }
  }

  /** The order of the listing matters only for classes that vanish midway: a call completes when no class that is there
      at the first round is refused, and it does not when one that is there to the end is. */
  lemma CompletesInAnyOrder(b: Backfill)
    requires IsListing(b.names, b.before)
    ensures Needing(b.p, b.wanted, b.before - b.Vanished(1)) !! b.failing ==> b.Completes()
    ensures b.Completes() ==> Needing(b.p, b.wanted, b.before - b.Vanished(|b.names|)) !! b.failing
  {
    forall i | 0 <= i < |b.names|
      ensures b.Patches(i) ==> b.names[i] in Needing(b.p, b.wanted, b.before - b.Vanished(1))
      ensures b.names[i] in Needing(b.p, b.wanted, b.before - b.Vanished(|b.names|)) ==> b.Patches(i)
    {
      VanishedGrows(b, 1, i + 1);
      VanishedGrows(b, i + 1, |b.names|);
    }
    if b.Completes() {
      forall n | n in Needing(b.p, b.wanted, b.before - b.Vanished(|b.names|)) ensures n !in b.failing {
        assert n in FirstNames(b.names, |b.names|);
        var i :| 0 <= i < |b.names| && b.names[i] == n;
        assert !b.Refused(i);
      }
    }
  }

  /** The log holds each class that was patched once. */
  lemma {:induction false} LogExactly(b: Backfill, k: nat)
    requires Distinct(b.names) && k <= |b.names|
    ensures Distinct(b.Log(k))
    ensures forall n :: n in b.Log(k) <==> exists i | 0 <= i < k :: b.names[i] == n && b.Patches(i)
  {
    if k == 0 {
    } else {
      LogExactly(b, k - 1);
      var front := b.Log(k - 1);
      forall j | 0 <= j < |front| ensures front[j] != b.names[k - 1] {
        assert front[j] in front;
      }
    }
  }

  lemma {:induction false} NothingLogged(b: Backfill, k: nat)
    requires Needing(b.p, b.wanted, b.before) == {} && k <= |b.names|
    ensures b.Log(k) == []
  {
    if k == 0 {
    } else {
      NothingLogged(b, k - 1);
    }
  }

  /** A call that follows a complete one in which no more classes were to be skipped patches nothing, whatever vanishes
      and whichever patches would be refused, and leaves every class as it is; this also holds for classes a chart has
      rendered with templates in between. No call ever changes more of a class than a missing template. */
  lemma SecondBackfillIsIdle(
      p: Profile, first: set<string>, second: set<string>, classes: map<string, MachineClass>,
      rendered: map<string, MachineClass>, b: Backfill, k: nat)
    requires first <= second && forall n | n in rendered :: rendered[n].nodeTemplate.Some?
    requires b.p == p && b.wanted == second && b.before == Backfilled(p, first, classes) + rendered
    requires k <= |b.names|
    ensures b.Completes() && b.Log(k) == []
    ensures b.After(k, k) == b.before - b.Vanished(k)
    ensures forall n | n in classes && n !in rendered ::
      && b.before[n].providerSpec == classes[n].providerSpec && b.before[n].rest == classes[n].rest
      && (classes[n].nodeTemplate.Some? ==> b.before[n].nodeTemplate == classes[n].nodeTemplate)
  {
    BackfillCompletes(p, first, classes);
    assert Needing(p, second, b.before) == {} by {
      assert Needing(p, first, Backfilled(p, first, classes)) == {};
      forall n | n in b.before ensures !Needs(p, second, n, b.before[n]) {
        assert n !in rendered ==> n !in Needing(p, first, Backfilled(p, first, classes));
      }
    }
    NothingLogged(b, k);
  }

  /** Round i: other clients delete classes, then the listed one is dealt with. */
  method BackfillRound(
      store: MachineClassStore, p: Profile, wanted: set<string>, name: string, listed: MachineClass, gone: set<string>,
      failing: set<string>, ghost b: Backfill, ghost i: nat)
    returns (ok: bool)
    requires IsListing(b.names, b.before) && i < |b.names| && b.names[i] == name
    requires name in b.before && b.before[name] == listed
    requires b.p == p && b.wanted == wanted && b.failing == failing && b.vanishing(i) == gone
    requires store.classes == b.After(i, i)
    modifies store
    ensures ok <==> !b.Refused(i)
    ensures store.classes == if ok then b.After(i + 1, i + 1) else b.After(i, i + 1)
    ensures store.patches == old(store.patches) + if ok && b.Patches(i) then [name] else []
  {
    NextName(b.names, i);
    store.DeletedByOthers(gone);
    ghost var before := b.before - b.Vanished(i + 1);
    ghost var done := FirstNames(b.names, i);
    ProgressWithout(p, wanted, b.before - b.Vanished(i), done, gone);
    assert b.before - b.Vanished(i) - gone == before;
    assert name in Needing(p, wanted, before) <==> b.Patches(i);
    ok := BackfillOne(store, p, wanted, name, listed, failing, before, done);
  }

  /** The first k rounds have taken place and none was refused; the log began as start. */
  ghost predicate Reached(b: Backfill, k: nat, classes: map<string, MachineClass>, start: seq<string>, log: seq<string>)
    requires k <= |b.names|
  {
    b.RefusedNowhereBefore(k) && classes == b.After(k, k) && log == start + b.Log(k)
  }

  /** Round k was the first one to be refused. */
  ghost predicate Stopped(
      b: Backfill, k: nat, classes: map<string, MachineClass>, start: seq<string>, log: seq<string>)
  {
    && k < |b.names| && b.RefusedNowhereBefore(k) && b.Refused(k)
    && classes == b.After(k, k + 1) && log == start + b.Log(k)
  }

  lemma ReachedNext(
      b: Backfill, i: nat, start: seq<string>, log: seq<string>, classes: map<string, MachineClass>, log': seq<string>)
    requires i < |b.names| && b.RefusedNowhereBefore(i) && log == start + b.Log(i) && !b.Refused(i)
    requires classes == b.After(i + 1, i + 1) && log' == log + if b.Patches(i) then [b.names[i]] else []
    ensures Reached(b, i + 1, classes, start, log')
  {
  }

  method NextRound(
      store: MachineClassStore, p: Profile, wanted: set<string>, name: string, listed: MachineClass, gone: set<string>,
      failing: set<string>, ghost b: Backfill, ghost i: nat, ghost start: seq<string>)
    returns (ok: bool)
    requires IsListing(b.names, b.before) && i < |b.names| && b.names[i] == name
    requires name in b.before && b.before[name] == listed
    requires b.p == p && b.wanted == wanted && b.failing == failing && b.vanishing(i) == gone
    requires Reached(b, i, store.classes, start, store.patches)
    modifies store
    ensures ok ==> Reached(b, i + 1, store.classes, start, store.patches)
    ensures !ok ==> Stopped(b, i, store.classes, start, store.patches)
  {
    ghost var log := store.patches;
    ok := BackfillRound(store, p, wanted, name, listed, gone, failing, b, i);
    if ok {
      ReachedNext(b, i, start, log, store.classes, store.patches);
    }
  }

  /** The loop over the listed classes. */
  method BackfillListed(
      store: MachineClassStore, p: Profile, wanted: set<string>, names: seq<string>, items: map<string, MachineClass>,
      vanishing: nat -> set<string>, failing: set<string>, ghost b: Backfill)
    returns (ok: bool, ghost rounds: nat)
    requires b == Backfill(p, wanted, items, names, vanishing, failing)
    requires IsListing(names, items) && store.classes == items
    modifies store
    ensures ok ==> rounds == |names| && Reached(b, rounds, store.classes, old(store.patches), store.patches)
    ensures !ok ==> Stopped(b, rounds, store.classes, old(store.patches), store.patches)
  {
    for i := 0 to |names|
      invariant Reached(b, i, store.classes, old(store.patches), store.patches)
    {
      assert names[i] in FirstNames(names, |names|);
      var patched := NextRound(
        store, p, wanted, names[i], items[names[i]], vanishing(i), failing, b, i, old(store.patches));
      if !patched {
        return false, i;
      }
    }
    return true, |names|;
  }

  /** Gives a template to every listed class that lacks one, up to the first patch that is refused. */
  method BackfillNodeTemplates(
      store: MachineClassStore, p: Profile, wanted: set<string>, listable: bool, vanishing: nat -> set<string>,
      failing: set<string>)
    returns (ok: bool, ghost names: seq<string>)
    modifies store
    ensures !listable ==> !ok && store.classes == old(store.classes) && store.patches == old(store.patches)
    ensures listable ==> IsListing(names, old(store.classes))
    ensures
      var b := Backfill(p, wanted, old(store.classes), names, vanishing, failing);
      && (listable ==> (ok <==> b.Completes()))
      // success: the classes that are still there are as they should be, and the log says which were patched
      && (ok ==>
            && store.classes == Backfilled(p, wanted, old(store.classes) - b.Vanished(|names|))
            && store.patches == old(store.patches) + b.Log(|names|))
      // failure: the rounds before the first refused patch have taken place
      && (listable && !ok ==> exists i :: Stopped(b, i, store.classes, old(store.patches), store.patches))
  {
    names := [];
    if !listable {
      return false, [];
    }
    var listed := store.List();
    names := listed;
    var items := store.classes;
    ghost var rounds;
    ghost var b := Backfill(p, wanted, items, listed, vanishing, failing);
    ok, rounds := BackfillListed(store, p, wanted, listed, items, vanishing, failing, b);
    if ok {
      assert store.classes == Backfilled(p, wanted, items - b.Vanished(|listed|));
    } else {
      assert b.Refused(rounds);
    }
  }
}
