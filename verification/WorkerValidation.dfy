/** pkg/hcloud/apis/validation/workers.go: the rules for worker pools. */
module WorkerValidation {
  import opened Wrappers

  type int32 = x: int | -0x8000_0000 <= x < 0x8000_0000

  /** 32-bit addition with two's complement wrap-around. */
  function Add32(a: int32, b: int32): int32 {
    var sum := a + b;
    if sum >= 0x8000_0000 then sum - 0x1_0000_0000
    else if sum < -0x8000_0000 then sum + 0x1_0000_0000
    else sum
  }

  datatype Surge = Count(value: int32) | Percent(text: string)

  /** The integer part of an int-or-string is zero for a string. */
  function IntVal(s: Surge): int32 {
    if s.Count? then s.value else 0
  }

  /** The placement group type of a pool: the empty string, "spread", or any other text. */
  datatype GroupType = NoGroup | Spread | OtherGroup(text: string)

  /** A pool; the provider configuration is its placement group type. */
  datatype Worker = Worker(
    name: string,
    minimum: int32,
    maximum: int32,
    maxSurge: Option<Surge>,
    zones: seq<string>,
    providerConfig: Decoded<GroupType>)

  datatype WorkerError =
    | ZonesRequired(worker: int)
    | MinimumForbidden(worker: int)
    | ZoneDuplicate(worker: int, zone: int)
    | MaximumForbidden(worker: int)
    | ZonesImmutable(worker: int)

  /** The collected errors, or the nil dereference the loop runs into. */
  datatype Verdict = Errors(list: seq<WorkerError>) | NilDereference

  predicate IsSpread(w: Worker) {
    w.providerConfig.Decoded? && w.providerConfig.value.Spread?
  }

  /** Validating the pool dereferences nil: its configuration does not decode, or it is a spread pool without a
      surge. */
  predicate Crashes(w: Worker) {
    w.zones != [] && (w.providerConfig.Undecodable? || (IsSpread(w) && w.maxSurge.None?))
  }

  /** Position j of the list holds a zone that occurs before it. */
  predicate Repeats(zones: seq<string>, j: nat)
    requires j < |zones|
  {
    exists k | 0 <= k < j :: zones[k] == zones[j]
  }

  /** One error for each of the first n zones that occurs earlier in the list. */
  function Duplicates(zones: seq<string>, worker: nat, n: nat): seq<WorkerError>
    requires n <= |zones|
  {
    if n == 0 then [] else
      Duplicates(zones, worker, n - 1) + if Repeats(zones, n - 1) then [ZoneDuplicate(worker, n - 1)] else []
  }

  function MinimumErrors(w: Worker, i: nat): seq<WorkerError> {
    if w.maximum != 0 && w.minimum == 0 then [MinimumForbidden(i)] else []
  }

  function SizeErrors(w: Worker, i: nat): seq<WorkerError>
    requires !Crashes(w) && w.zones != []
  {
    if IsSpread(w) && Add32(w.maximum, IntVal(w.maxSurge.value)) > 10 then [MaximumForbidden(i)] else []
  }

  function PoolErrors(w: Worker, i: nat): seq<WorkerError>
    requires !Crashes(w)
  {
    if w.zones == [] then [ZonesRequired(i)]
    else MinimumErrors(w, i) + Duplicates(w.zones, i, |w.zones|) + SizeErrors(w, i)
  }

  /** The errors pool by pool; none for a pool that crashes the loop. */
  function PoolLists(workers: seq<Worker>): (lists: seq<seq<WorkerError>>)
    ensures |lists| == |workers|
  {
    seq(|workers|, i requires 0 <= i < |workers| => if Crashes(workers[i]) then [] else PoolErrors(workers[i], i))
  }

  /** What the whole loop collects, unless some pool crashes it. */
  function AllErrors(workers: seq<Worker>): Verdict {
    if exists i | 0 <= i < |workers| :: Crashes(workers[i]) then NilDereference
    else Errors(Flatten(PoolLists(workers), |workers|))
  }

  method ValidateZones(w: Worker, i: nat) returns (errs: seq<WorkerError>)
    ensures errs == Duplicates(w.zones, i, |w.zones|)
  {
    errs := [];
    var zones: set<string> := {};
    for j := 0 to |w.zones|
      invariant forall k | 0 <= k < j :: w.zones[k] in zones
      invariant forall z | z in zones :: exists k | 0 <= k < j :: w.zones[k] == z
      invariant errs == Duplicates(w.zones, i, j)
    {
      var zone := w.zones[j];
      if zone in zones {
        errs := errs + [ZoneDuplicate(i, j)];
        continue;
      }
      zones := zones + {zone};
    }
  }

  /** One round of the loop over the pools; None when it dereferences nil. */
  method ValidatePool(worker: Worker, i: nat) returns (r: Option<seq<WorkerError>>)
    ensures r == if Crashes(worker) then None else Some(PoolErrors(worker, i))
  {
    if |worker.zones| == 0 {
      return Some([ZonesRequired(i)]);
    }
    var errs: seq<WorkerError> := [];
    if worker.maximum != 0 && worker.minimum == 0 {
      errs := errs + [MinimumForbidden(i)];
    }
    assert errs == MinimumErrors(worker, i);
    var duplicates := ValidateZones(worker, i);
    errs := errs + duplicates;
    if worker.providerConfig.Undecodable? {
      return None;
    }
    if worker.providerConfig.Decoded? && worker.providerConfig.value.Spread? {
      if worker.maxSurge.None? {
        return None;
      }
      if Add32(worker.maximum, IntVal(worker.maxSurge.value)) > 10 {
        errs := errs + [MaximumForbidden(i)];
      }
    }
    assert errs == MinimumErrors(worker, i) + duplicates + SizeErrors(worker, i);
    return Some(errs);
  }

  lemma PoolListAt(workers: seq<Worker>, i: nat)
    requires i < |workers| && !Crashes(workers[i])
    ensures PoolLists(workers)[i] == PoolErrors(workers[i], i)
  {
  }

  method ValidateWorkers(workers: seq<Worker>) returns (r: Verdict)
    ensures r == AllErrors(workers)
  {
    var errs: seq<WorkerError> := [];
    ghost var lists := PoolLists(workers);
    for i := 0 to |workers|
      invariant forall j | 0 <= j < i :: !Crashes(workers[j])
      invariant errs == Flatten(lists, i)
    {
      var poolErrs := ValidatePool(workers[i], i);
      if poolErrs.None? {
        return NilDereference;
      }
      PoolListAt(workers, i);
      errs := errs + poolErrs.value;
    }
    return Errors(errs);
  }

  // ---------- what the verdict means ----------

  lemma {:induction false} DuplicatesExactly(zones: seq<string>, worker: nat, n: nat, e: WorkerError)
    requires n <= |zones|
    ensures e in Duplicates(zones, worker, n) <==>
      e.ZoneDuplicate? && e.worker == worker && 0 <= e.zone < n && Repeats(zones, e.zone)
  {
    if n == 0 {
    } else {
      DuplicatesExactly(zones, worker, n - 1, e);
    }
  }

  ghost predicate Distinct(zones: seq<string>) {
    forall j, k | 0 <= j < k < |zones| :: zones[j] != zones[k]
  }

  lemma NoDuplicatesIffDistinct(zones: seq<string>, worker: nat)
    ensures Duplicates(zones, worker, |zones|) == [] <==> Distinct(zones)
  {
    if j, k :| 0 <= j < k < |zones| && zones[j] == zones[k] {
      DuplicatesExactly(zones, worker, |zones|, ZoneDuplicate(worker, k));
      assert Repeats(zones, k);
    }
    var d := Duplicates(zones, worker, |zones|);
    if d != [] {
      DuplicatesExactly(zones, worker, |zones|, d[0]);
    }
  }

  lemma PoolDuplicates(w: Worker, i: nat, e: WorkerError)
    requires !Crashes(w) && e.ZoneDuplicate?
    ensures e in PoolErrors(w, i) <==> e.worker == i && 0 <= e.zone < |w.zones| && Repeats(w.zones, e.zone)
  {
    DuplicatesExactly(w.zones, i, |w.zones|, e);
    if w.zones != [] {
      var a, b, c := MinimumErrors(w, i), Duplicates(w.zones, i, |w.zones|), SizeErrors(w, i);
      assert e in a + b + c <==> e in a || e in b || e in c;
      assert e !in a && e !in c;
    }
  }

  /** A duplicate is reported for exactly the positions whose zone occurs earlier in the same pool. */
  lemma DuplicateReports(workers: seq<Worker>, i: nat, j: nat)
    requires AllErrors(workers).Errors?
    ensures ZoneDuplicate(i, j) in AllErrors(workers).list <==>
      i < |workers| && j < |workers[i].zones| && Repeats(workers[i].zones, j)
  {
    var e := ZoneDuplicate(i, j);
    FlattenMembers(PoolLists(workers), |workers|, e);
    forall k | 0 <= k < |workers|
      ensures e in PoolLists(workers)[k] <==> k == i && j < |workers[k].zones| && Repeats(workers[k].zones, j)
    {
      PoolDuplicates(workers[k], k, e);
    }
  }

  /** The 32-bit sum is the sum up to a multiple of 2^32. */
  lemma WrapsAround(a: int32, b: int32)
    ensures Add32(a, b) == a + b || Add32(a, b) == a + b - 0x1_0000_0000 || Add32(a, b) == a + b + 0x1_0000_0000
  {
  }

  /** The pool deserves the error with its own number. */
  ghost predicate Deserves(w: Worker, e: WorkerError) {
    match e
    case ZonesRequired(_) => w.zones == []
    case MinimumForbidden(_) => w.zones != [] && w.maximum != 0 && w.minimum == 0
    case ZoneDuplicate(_, j) => 0 <= j < |w.zones| && exists k | 0 <= k < j :: w.zones[k] == w.zones[j]
    case MaximumForbidden(_) =>
      && w.zones != [] && w.providerConfig == Decoded.Decoded(Spread) && w.maxSurge.Some?
      && var size := w.maximum + match w.maxSurge.value case Count(n) => n case Percent(_) => 0;
      10 < size < 0x8000_0000 || 10 - 0x1_0000_0000 < size < -0x8000_0000
    case ZonesImmutable(_) => false
  }

  lemma PoolReportsExactly(w: Worker, i: nat, e: WorkerError)
    requires !Crashes(w)
    ensures e in PoolErrors(w, i) <==> e.worker == i && Deserves(w, e)
  {
    if e.ZoneDuplicate? {
      PoolDuplicates(w, i, e);
    } else if w.zones != [] {
      DuplicatesExactly(w.zones, i, |w.zones|, e);
      if IsSpread(w) {
        WrapsAround(w.maximum, IntVal(w.maxSurge.value));
      }
      var a, b, c := MinimumErrors(w, i), Duplicates(w.zones, i, |w.zones|), SizeErrors(w, i);
      assert e in a + b + c <==> e in a || e in b || e in c;
    }
  }

  /** The loop dereferences nil exactly at a pool with zones whose configuration does not decode, or that is spread
      and has no surge; otherwise each error is in the list exactly if the pool of its number deserves it. */
  lemma ReportsExactly(workers: seq<Worker>, e: WorkerError)
    ensures
      AllErrors(workers) == NilDereference <==>
        exists w | w in workers ::
          && w.zones != []
          && (w.providerConfig.Undecodable? || (w.providerConfig == Decoded.Decoded(Spread) && w.maxSurge.None?))
    ensures AllErrors(workers).Errors? ==>
      (e in AllErrors(workers).list <==> 0 <= e.worker < |workers| && Deserves(workers[e.worker], e))
  {
    if i :| 0 <= i < |workers| && Crashes(workers[i]) {
      assert workers[i] in workers;
    }
    if AllErrors(workers).Errors? {
      FlattenMembers(PoolLists(workers), |workers|, e);
      forall i | 0 <= i < |workers| ensures e in PoolLists(workers)[i] <==> e.worker == i && Deserves(workers[i], e) {
        PoolListAt(workers, i);
        PoolReportsExactly(workers[i], i, e);
      }
    }
  }

  /** The pool obeys the rules, with the size of a spread pool computed in 32 bits. */
  ghost predicate GoodPool(w: Worker) {
    && w.zones != [] && Distinct(w.zones)
    && (w.maximum != 0 ==> w.minimum != 0)
    && !w.providerConfig.Undecodable?
    && (IsSpread(w) ==> w.maxSurge.Some? && Add32(w.maximum, IntVal(w.maxSurge.value)) <= 10)
  }

  lemma PoolAcceptedIffGood(w: Worker, i: nat)
    ensures GoodPool(w) <==> !Crashes(w) && PoolErrors(w, i) == []
  {
    NoDuplicatesIffDistinct(w.zones, i);
  }

  /** The same for the list of pool i. */
  lemma EmptyListIffGood(workers: seq<Worker>, i: nat)
    requires i < |workers|
    ensures GoodPool(workers[i]) <==> !Crashes(workers[i]) && PoolLists(workers)[i] == []
  {
    PoolAcceptedIffGood(workers[i], i);
    if !Crashes(workers[i]) {
      PoolListAt(workers, i);
    }
  }

  /** Pools are accepted exactly when each of them is good; a nil dereference is not acceptance. */
  lemma AcceptedIffGood(workers: seq<Worker>)
    ensures AllErrors(workers) == Errors([]) <==> forall i | 0 <= i < |workers| :: GoodPool(workers[i])
  {
    var lists := PoolLists(workers);
    FlattenEmpty(lists, |workers|);
    forall i | 0 <= i < |workers| ensures GoodPool(workers[i]) <==> !Crashes(workers[i]) && lists[i] == [] {
      EmptyListIffGood(workers, i);
    }
  }

  /** In an accepted list a spread pool has a surge, and it keeps to ten machines exactly if its size fits in 32
      bits. */
  lemma SpreadSize(workers: seq<Worker>, i: nat)
    requires AllErrors(workers) == Errors([]) && i < |workers| && IsSpread(workers[i])
    ensures workers[i].maxSurge.Some?
    ensures
      var size := workers[i].maximum + IntVal(workers[i].maxSurge.value);
      size <= 10 <==> size < 0x8000_0000
  {
    AcceptedIffGood(workers);
  }

  // ---------- updates ----------

  /** The first pool of that name. */
  function FirstNamed(workers: seq<Worker>, name: string): Option<Worker> {
    if workers == [] then None
    else if workers[0].name == name then Some(workers[0])
    else FirstNamed(workers[1..], name)
  }

  /** The zones of a pool that existed before must not change where the library asks for immutability. */
  function UpdateErrorsUpTo(
      enforce: (seq<string>, seq<string>) -> bool, old': seq<Worker>, new': seq<Worker>, n: nat): seq<WorkerError>
    requires n <= |new'|
  {
    if n == 0 then [] else
      var w := new'[n - 1];
      UpdateErrorsUpTo(enforce, old', new', n - 1) +
      match FirstNamed(old', w.name)
      case None => []
      case Some(o) => if enforce(w.zones, o.zones) && w.zones != o.zones then [ZonesImmutable(n - 1)] else []
  }

  function UpdateErrors(
      enforce: (seq<string>, seq<string>) -> bool, old': seq<Worker>, new': seq<Worker>): seq<WorkerError>
  {
    UpdateErrorsUpTo(enforce, old', new', |new'|)
  }

  method FindOldWorker(workers: seq<Worker>, name: string) returns (found: Option<Worker>)
    ensures found == FirstNamed(workers, name)
  {
    var i := 0;
    while i < |workers|
      invariant 0 <= i <= |workers|
      invariant FirstNamed(workers, name) == FirstNamed(workers[i..], name)
    {
      if workers[i].name == name {
        return Some(workers[i]);
      }
      i := i + 1;
    }
    return None;
  }

  method ValidateWorkersUpdate(enforce: (seq<string>, seq<string>) -> bool, old': seq<Worker>, new': seq<Worker>)
    returns (errs: seq<WorkerError>)
    ensures errs == UpdateErrors(enforce, old', new')
  {
    errs := [];
    for i := 0 to |new'|
      invariant errs == UpdateErrorsUpTo(enforce, old', new', i)
    {
      var found := FindOldWorker(old', new'[i].name);
      if found.Some? && enforce(new'[i].zones, found.value.zones) && new'[i].zones != found.value.zones {
        errs := errs + [ZonesImmutable(i)];
      }
    }
  }

  lemma {:induction false} FirstNamedIndex(workers: seq<Worker>, name: string) returns (i: nat)
    requires FirstNamed(workers, name).Some?
    ensures i < |workers| && FirstNamed(workers, name) == Some(workers[i]) && workers[i].name == name
    ensures forall j | 0 <= j < i :: workers[j].name != name
  {
    if workers[0].name == name {
      i := 0;
    } else {
      var j := FirstNamedIndex(workers[1..], name);
      i := j + 1;
    }
  }

  /** The zones of pool i break the immutability rule. */
  predicate ZonesChanged(enforce: (seq<string>, seq<string>) -> bool, old': seq<Worker>, w: Worker) {
    var o := FirstNamed(old', w.name);
    o.Some? && enforce(w.zones, o.value.zones) && w.zones != o.value.zones
  }

  lemma {:induction false} ChangesUpTo(
      enforce: (seq<string>, seq<string>) -> bool, old': seq<Worker>, new': seq<Worker>, n: nat, e: WorkerError)
    requires n <= |new'|
    ensures e in UpdateErrorsUpTo(enforce, old', new', n) <==>
      e.ZonesImmutable? && 0 <= e.worker < n && ZonesChanged(enforce, old', new'[e.worker])
  {
    if n == 0 {
    } else {
      ChangesUpTo(enforce, old', new', n - 1, e);
    }
  }

  /** The first pool of that name is pool j. */
  ghost predicate IsFirstNamed(workers: seq<Worker>, name: string, j: int) {
    0 <= j < |workers| && workers[j].name == name && forall k | 0 <= k < j :: workers[k].name != name
  }

  lemma {:induction false} FirstNamedAt(workers: seq<Worker>, name: string, j: nat)
    requires IsFirstNamed(workers, name, j)
    ensures FirstNamed(workers, name) == Some(workers[j])
  {
    if j == 0 {
    } else {
      FirstNamedAt(workers[1..], name, j - 1);
    }
  }

  /** Exactly the pools are reported whose zones differ from those of the first old pool of their name, where the rule,
      asked for the new and the old zones, enforces immutability. */
  lemma UpdateReportsExactly(
      enforce: (seq<string>, seq<string>) -> bool, old': seq<Worker>, new': seq<Worker>, e: WorkerError)
    ensures
      e in UpdateErrors(enforce, old', new') <==>
        && e.ZonesImmutable? && 0 <= e.worker < |new'|
        && exists j | IsFirstNamed(old', new'[e.worker].name, j) ::
             new'[e.worker].zones != old'[j].zones && enforce(new'[e.worker].zones, old'[j].zones)
  {
    ChangesUpTo(enforce, old', new', |new'|, e);
    if e.ZonesImmutable? && 0 <= e.worker < |new'| {
      var name := new'[e.worker].name;
      forall j: nat | IsFirstNamed(old', name, j) ensures FirstNamed(old', name) == Some(old'[j]) {
        FirstNamedAt(old', name, j);
      }
      if FirstNamed(old', name).Some? {
        var j := FirstNamedIndex(old', name);
        assert IsFirstNamed(old', name, j);
      }
    }
  }

  /** No error exactly if no pool changed its zones where they are immutable. */
  lemma UpdateAcceptedIff(enforce: (seq<string>, seq<string>) -> bool, old': seq<Worker>, new': seq<Worker>)
    ensures UpdateErrors(enforce, old', new') == [] <==>
      forall i | 0 <= i < |new'| :: !ZonesChanged(enforce, old', new'[i])
  {
    var errs := UpdateErrors(enforce, old', new');
    if errs != [] {
      ChangesUpTo(enforce, old', new', |new'|, errs[0]);
    }
    if i :| 0 <= i < |new'| && ZonesChanged(enforce, old', new'[i]) {
      ChangesUpTo(enforce, old', new', |new'|, ZonesImmutable(i));
    }
  }

  /** What the rule for immutable zones permits, closed under doing nothing and doing one thing after the other. */
  ghost predicate Permits(enforce: (seq<string>, seq<string>) -> bool, r: (seq<string>, seq<string>) -> bool) {
    && (forall z :: r(z, z))
    && (forall x, y, z :: r(x, y) && r(y, z) ==> r(x, z))
    && (forall n, o :: !enforce(n, o) ==> r(o, n))
  }

  lemma ZonesArePermitted(
      enforce: (seq<string>, seq<string>) -> bool, r: (seq<string>, seq<string>) -> bool,
      old': seq<Worker>, new': seq<Worker>, name: string)
    requires Permits(enforce, r)
    requires forall i | 0 <= i < |new'| :: !ZonesChanged(enforce, old', new'[i])
    requires FirstNamed(old', name).Some? && FirstNamed(new', name).Some?
    ensures r(FirstNamed(old', name).value.zones, FirstNamed(new', name).value.zones)
  {
    var i := FirstNamedIndex(new', name);
    assert !ZonesChanged(enforce, old', new'[i]);
  }
}
