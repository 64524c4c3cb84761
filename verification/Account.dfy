/** The Hetzner Cloud account: what it holds, how it is searched, and a client whose calls may fail. */
module Account {
  import opened Wrappers
  import opened Cidr

  datatype Subnet = Subnet(ipRange: Option<Net>, networkZone: string)
  datatype Network = Network(name: string, ipRange: Option<Net>, subnets: seq<Subnet>)
  datatype SSHKey = SSHKey(name: string, fingerprint: string)
  datatype PlacementGroup = PlacementGroup(name: string)

  /** All resources by id. Ids are handed out in increasing order and never used twice. */
  datatype Resources = Resources(
    networks: map<int, Network>,
    keys: map<int, SSHKey>,
    groups: map<int, PlacementGroup>,
    lastId: nat)

  /** Every id is positive and was handed out already. */
  ghost predicate Valid(a: Resources) {
    && (forall id | id in a.networks :: 0 < id <= a.lastId)
    && (forall id | id in a.keys :: 0 < id <= a.lastId)
    && (forall id | id in a.groups :: 0 < id <= a.lastId)
  }

  // ---------- lookups: by name or fingerprint, the oldest match ----------

  ghost predicate IsLeast(s: set<int>, x: int) {
    x in s && forall y | y in s :: x <= y
  }

  lemma {:induction false} LeastFrom(s: set<int>, x: int)
    requires x in s
    ensures exists m :: IsLeast(s, m)
  {
    if z :| z in s && z < x {
      var rest := s - {x};
      LeastFrom(rest, z);
      var m :| IsLeast(rest, m);
      forall y | y in s ensures m <= y {
        assert y == x || y in rest;
        assert z in rest;
      }
      assert IsLeast(s, m);
    } else {
      assert IsLeast(s, x);
    }
  }

  lemma {:induction false} MinimumExists(s: set<int>)
    requires exists x :: x in s
    ensures exists x :: IsLeast(s, x)
  {
    var x :| x in s;
    LeastFrom(s, x);
  }

  function Least(s: set<int>): (r: Option<int>)
    ensures r.None? ==> forall y :: y !in s
    ensures r.Some? ==> r.value in s && forall y | y in s :: r.value <= y
  {
    if !exists x :: x in s then None else
      MinimumExists(s);
      assert exists x :: x in s && forall y | y in s :: x <= y by {
        var x :| IsLeast(s, x);
      }
      var x :| x in s && forall y | y in s :: x <= y;
      Some(x)
  }

  function NetworksNamed(m: map<int, Network>, name: string): set<int> {
    set id | id in m && m[id].name == name
  }

  function FindNetwork(m: map<int, Network>, name: string): Option<int> {
    Least(NetworksNamed(m, name))
  }

  function KeysWith(m: map<int, SSHKey>, fingerprint: string): set<int> {
    set id | id in m && m[id].fingerprint == fingerprint
  }

  function FindKey(m: map<int, SSHKey>, fingerprint: string): Option<int> {
    Least(KeysWith(m, fingerprint))
  }

  function GroupsNamed(m: map<int, PlacementGroup>, name: string): set<int> {
    set id | id in m && m[id].name == name
  }

  function FindGroup(m: map<int, PlacementGroup>, name: string): Option<int> {
    Least(GroupsNamed(m, name))
  }

  // ---------- creations ----------

  function AddNetwork(a: Resources, n: Network): Resources {
    a.(networks := a.networks[a.lastId + 1 := n], lastId := a.lastId + 1)
  }

  function AddKey(a: Resources, k: SSHKey): Resources {
    a.(keys := a.keys[a.lastId + 1 := k], lastId := a.lastId + 1)
  }

  function AddGroup(a: Resources, g: PlacementGroup): Resources {
    a.(groups := a.groups[a.lastId + 1 := g], lastId := a.lastId + 1)
  }

  datatype Reply<+T> = Unavailable | Got(value: T)

  /** The API client. A call that is down fails and changes nothing. */
  class Client {
    var networks: map<int, Network>
    var keys: map<int, SSHKey>
    var groups: map<int, PlacementGroup>
    var lastId: nat

    ghost function View(): Resources
      reads this
    {
      Resources(networks, keys, groups, lastId)
    }

    constructor (a: Resources)
      ensures View() == a
    {
      networks, keys, groups, lastId := a.networks, a.keys, a.groups, a.lastId;
    }

    method GetNetworkByName(name: string, down: bool) returns (r: Reply<Option<int>>)
      ensures r == if down then Unavailable else Got(FindNetwork(networks, name))
    {
      r := if down then Unavailable else Got(FindNetwork(networks, name));
    }

    method CreateNetwork(n: Network, down: bool) returns (r: Reply<int>)
      modifies this
      ensures down ==> r == Unavailable && View() == old(View())
      ensures !down ==> r == Got(lastId) && View() == AddNetwork(old(View()), n)
    {
      if down {
        return Unavailable;
      }
      lastId := lastId + 1;
      networks := networks[lastId := n];
      return Got(lastId);
    }

    method DeleteNetwork(id: int, down: bool) returns (done: bool)
      modifies this
      ensures done == !down
      ensures View() == if down then old(View()) else old(View()).(networks := old(networks) - {id})
    {
      if !down {
        networks := networks - {id};
      }
      done := !down;
    }

    method GetKeyByFingerprint(fingerprint: string, down: bool) returns (r: Reply<Option<int>>)
      ensures r == if down then Unavailable else Got(FindKey(keys, fingerprint))
    {
      r := if down then Unavailable else Got(FindKey(keys, fingerprint));
    }

    method CreateKey(k: SSHKey, down: bool) returns (r: Reply<int>)
      modifies this
      ensures down ==> r == Unavailable && View() == old(View())
      ensures !down ==> r == Got(lastId) && View() == AddKey(old(View()), k)
    {
      if down {
        return Unavailable;
      }
      lastId := lastId + 1;
      keys := keys[lastId := k];
      return Got(lastId);
    }

    method DeleteKey(id: int, down: bool) returns (done: bool)
      modifies this
      ensures done == !down
      ensures View() == if down then old(View()) else old(View()).(keys := old(keys) - {id})
    {
      if !down {
        keys := keys - {id};
      }
      done := !down;
    }

    method GetGroupByName(name: string, down: bool) returns (r: Reply<Option<int>>)
      ensures r == if down then Unavailable else Got(FindGroup(groups, name))
    {
      r := if down then Unavailable else Got(FindGroup(groups, name));
    }

    method CreateGroup(g: PlacementGroup, down: bool) returns (r: Reply<int>)
      modifies this
      ensures down ==> r == Unavailable && View() == old(View())
      ensures !down ==> r == Got(lastId) && View() == AddGroup(old(View()), g)
    {
      if down {
        return Unavailable;
      }
      lastId := lastId + 1;
      groups := groups[lastId := g];
      return Got(lastId);
    }

    method GetGroupById(id: int, down: bool) returns (r: Reply<bool>)
      ensures r == if down then Unavailable else Got(id in groups)
    {
      r := if down then Unavailable else Got(id in groups);
    }

    method DeleteGroup(id: int, down: bool) returns (done: bool)
      modifies this
      ensures done == !down
      ensures View() == if down then old(View()) else old(View()).(groups := old(groups) - {id})
    {
      if !down {
        groups := groups - {id};
      }
      done := !down;
    }
  }
}
