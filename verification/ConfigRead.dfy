/** Reading the configuration: the lists the API gives, turned into the maps
    from names to ids and back. */
module ConfigRead {
  import opened Strings
  import opened ConfigIO
  import opened ConfigProofs

  datatype Item = Item(id: string, name: string)

  datatype GroupItem = GroupItem(item: Item, description: string, members: seq<string>)

  datatype TargetItem = TargetItem(name: string, target: Target)

  datatype PolicyItem = PolicyItem(name: string, policy: Policy)

  datatype Lists = Lists(users: seq<Item>, credentials: seq<Item>, asgs: seq<Item>,
                         groups: seq<GroupItem>, targets: seq<TargetItem>, policies: seq<PolicyItem>)

  function GroupItems(gs: seq<GroupItem>): seq<Item> { seq(|gs|, i requires 0 <= i < |gs| => gs[i].item) }

  function TargetItems(ts: seq<TargetItem>): seq<Item> {
    seq(|ts|, i requires 0 <= i < |ts| => Item(ts[i].target.id, ts[i].name))
  }

  /** Everything that has an id and a name, in the order it is read. */
  function AllItems(l: Lists): seq<Item> { l.users + l.credentials + l.asgs + GroupItems(l.groups) + TargetItems(l.targets) }

  /** No two things have the same id, and no two of one kind the same name. */
  ghost predicate DistinctIds(items: seq<Item>) { forall i, j | 0 <= i < j < |items| :: items[i].id != items[j].id }

  ghost predicate DistinctNames(items: seq<Item>) { forall i, j | 0 <= i < j < |items| :: items[i].name != items[j].name }

  ghost predicate Indexed(byID: map<string, string>, items: seq<Item>) {
    forall i | 0 <= i < |items| :: items[i].id in byID && byID[items[i].id] == items[i].name
  }

  /** The map holds the id of each item under its name, and nothing else. */
  ghost predicate Table(m: map<string, string>, items: seq<Item>) {
    && (forall i | 0 <= i < |items| :: items[i].name in m && m[items[i].name] == items[i].id)
    && (forall n | n in m :: Holds(items, n))
  }

  ghost predicate Holds(items: seq<Item>, name: string) { exists x :: x in items && x.name == name }

  lemma IndexedMore(byID: map<string, string>, done: seq<Item>, x: Item)
    requires Indexed(byID, done) && DistinctIds(done + [x])
    ensures Indexed(byID[x.id := x.name], done + [x])
  {
    forall i | 0 <= i < |done| ensures done[i].id != x.id { assert (done + [x])[i].id != (done + [x])[|done|].id; }
  }

  lemma DistinctPrefix(items: seq<Item>, n: nat)
    requires DistinctIds(items) && n <= |items|
    ensures DistinctIds(items[..n])
  {
  }

  lemma Grown(done: seq<Item>, items: seq<Item>, i: nat)
    requires i < |items| && DistinctIds(done + items)
    ensures done + items[..i + 1] == (done + items[..i]) + [items[i]] && DistinctIds((done + items[..i]) + [items[i]])
  {
    DistinctPrefix(done + items, |done| + i + 1);
    assert (done + items)[..|done| + i + 1] == done + items[..i + 1];
  }

  /** Reads one list into its own map and into the map from ids to names. */
  method ReadItems(items: seq<Item>, index: map<string, string>, ghost done: seq<Item>)
    returns (table: map<string, string>, byID: map<string, string>)
    requires Indexed(index, done) && DistinctIds(done + items) && DistinctNames(items)
    ensures Table(table, items) && Indexed(byID, done + items)
  {
    table, byID := map[], index;
    assert done + items[..0] == done;
    for i := 0 to |items|
      invariant Table(table, items[..i]) && Indexed(byID, done + items[..i])
    {
      var x := items[i];
      Grown(done, items, i);
      IndexedMore(byID, done + items[..i], x);
      TableMore(table, items, i);
      table, byID := table[x.name := x.id], byID[x.id := x.name];
    }
    assert items[..|items|] == items;
  }

  lemma TableMore(m: map<string, string>, items: seq<Item>, i: nat)
    requires i < |items| && DistinctNames(items) && Table(m, items[..i])
    ensures Table(m[items[i].name := items[i].id], items[..i + 1])
  {
    var next, more := m[items[i].name := items[i].id], items[..i + 1];
    assert more == items[..i] + [items[i]];
    forall n | n in next ensures Holds(more, n) {
      if n == items[i].name {
        assert items[i] in more;
      } else {
        assert Holds(items[..i], n);
        var x :| x in items[..i] && x.name == n;
        assert x in more;
      }
    }
  }

  /** The group is in the map under its name, and its members, sorted, under its id. */
  ghost predicate GroupIn(g: GroupItem, groups: map<string, Group>, members: map<string, seq<string>>) {
    && g.item.name in groups && groups[g.item.name] == Group(g.item.id, g.description)
    && g.item.id in members && members[g.item.id] == Sort(g.members)
  }

  function NamesOf(gs: seq<GroupItem>): set<string> { set g | g in gs :: g.item.name }

  lemma NamesOfMore(gs: seq<GroupItem>, i: nat)
    requires i < |gs|
    ensures NamesOf(gs[..i + 1]) == NamesOf(gs[..i]) + {gs[i].item.name}
  {
    assert gs[..i + 1] == gs[..i] + [gs[i]];
    assert gs[i] in gs[..i + 1];
  }

  method ReadGroups(gs: seq<GroupItem>) returns (groups: map<string, Group>, members: map<string, seq<string>>)
    requires DistinctNames(GroupItems(gs)) && DistinctIds(GroupItems(gs))
    ensures groups.Keys == NamesOf(gs)
    ensures forall i | 0 <= i < |gs| :: GroupIn(gs[i], groups, members)
  {
    groups, members := map[], map[];
    for i := 0 to |gs|
      invariant groups.Keys == NamesOf(gs[..i])
      invariant forall k | 0 <= k < i :: GroupIn(gs[k], groups, members)
    {
      var g := gs[i];
      NamesOfMore(gs, i);
      forall k | 0 <= k < i ensures gs[k].item.name != g.item.name && gs[k].item.id != g.item.id { GroupsApart(gs, k, i); }
      groups := groups[g.item.name := Group(g.item.id, g.description)];
      members := members[g.item.id := Sort(g.members)];
    }
    assert gs[..|gs|] == gs;
  }

  lemma GroupsApart(gs: seq<GroupItem>, k: nat, i: nat)
    requires DistinctNames(GroupItems(gs)) && DistinctIds(GroupItems(gs)) && k < i < |gs|
    ensures gs[k].item.name != gs[i].item.name && gs[k].item.id != gs[i].item.id
  {
    assert GroupItems(gs)[k].name != GroupItems(gs)[i].name && GroupItems(gs)[k].id != GroupItems(gs)[i].id;
  }

  method ReadTargets(ts: seq<TargetItem>) returns (targets: map<string, Target>)
    requires DistinctNames(TargetItems(ts))
    ensures targets.Keys == set t | t in ts :: t.name
    ensures forall i | 0 <= i < |ts| :: ts[i].name in targets && targets[ts[i].name] == ts[i].target
  {
    targets := map[];
    var items := TargetItems(ts);
    for i := 0 to |ts|
      invariant targets.Keys == set t | t in ts[..i] :: t.name
      invariant forall k | 0 <= k < i :: ts[k].name in targets && targets[ts[k].name] == ts[k].target
    {
      assert ts[..i + 1] == ts[..i] + [ts[i]];
      forall k | 0 <= k < i ensures ts[k].name != ts[i].name { assert items[k].name != items[i].name; }
      targets := targets[ts[i].name := ts[i].target];
    }
    assert ts[..|ts|] == ts;
  }

  method ReadPolicies(ps: seq<PolicyItem>) returns (policies: map<string, Policy>)
    ensures policies.Keys == set p | p in ps :: p.name
    ensures forall n | n in policies :: PolicyItem(n, policies[n]) in ps
  {
    policies := map[];
    for i := 0 to |ps|
      invariant policies.Keys == set p | p in ps[..i] :: p.name
      invariant forall n | n in policies :: PolicyItem(n, policies[n]) in ps
    {
      assert ps[..i + 1] == ps[..i] + [ps[i]];
      policies := policies[ps[i].name := ps[i].policy];
    }
    assert ps[..|ps|] == ps;
  }

  // ---- the whole configuration

  lemma TableLinked(s: State, m: map<string, string>, items: seq<Item>)
    requires Table(m, items) && Indexed(s.byID, items)
    ensures forall n | n in m :: Named(s, m[n], n)
  {
    forall n | n in m ensures Named(s, m[n], n) {
      assert Holds(items, n);
      var x :| x in items && x.name == n;
      var i :| 0 <= i < |items| && items[i] == x;
    }
  }

  lemma GroupsLinked(s: State, gs: seq<GroupItem>)
    requires Indexed(s.byID, GroupItems(gs)) && s.groups.Keys == NamesOf(gs)
    requires forall i | 0 <= i < |gs| :: GroupIn(gs[i], s.groups, s.members)
    ensures forall n | n in s.groups :: Named(s, s.groups[n].id, n)
  {
    forall n | n in s.groups ensures Named(s, s.groups[n].id, n) {
      var i :| 0 <= i < |gs| && gs[i].item.name == n;
      assert GroupIn(gs[i], s.groups, s.members) && GroupItems(gs)[i] == gs[i].item;
    }
  }

  lemma TargetsLinked(s: State, ts: seq<TargetItem>)
    requires Indexed(s.byID, TargetItems(ts)) && s.targets.Keys == set t | t in ts :: t.name
    requires forall i | 0 <= i < |ts| :: ts[i].name in s.targets && s.targets[ts[i].name] == ts[i].target
    ensures forall n | n in s.targets :: Named(s, s.targets[n].id, n)
  {
    forall n | n in s.targets ensures Named(s, s.targets[n].id, n) {
      var i :| 0 <= i < |ts| && ts[i].name == n;
      assert TargetItems(ts)[i] == Item(ts[i].target.id, n);
    }
  }

  lemma IndexedParts(byID: map<string, string>, a: seq<Item>, b: seq<Item>)
    requires Indexed(byID, a + b)
    ensures Indexed(byID, a) && Indexed(byID, b)
  {
    forall i | 0 <= i < |a| ensures a[i].id in byID && byID[a[i].id] == a[i].name { assert (a + b)[i] == a[i]; }
    forall i | 0 <= i < |b| ensures b[i].id in byID && byID[b[i].id] == b[i].name { assert (a + b)[|a| + i] == b[i]; }
  }

  lemma DistinctStart(a: seq<Item>, b: seq<Item>)
    requires DistinctIds(a + b)
    ensures DistinctIds(a) && DistinctIds(b)
  {
    assert (a + b)[..|a|] == a;
    DistinctPrefix(a + b, |a|);
    forall i, j | 0 <= i < j < |b| ensures b[i].id != b[j].id { assert (a + b)[|a| + i].id != (a + b)[|a| + j].id; }
  }

  /** Reads everything. From lists in which ids and names are not used twice
      comes a state in which every id turns back into its name. */
  method Read(l: Lists) returns (s: State)
    requires DistinctIds(AllItems(l))
    requires DistinctNames(l.users) && DistinctNames(l.credentials) && DistinctNames(l.asgs)
    requires DistinctNames(GroupItems(l.groups)) && DistinctNames(TargetItems(l.targets))
    ensures Linked(s)
    ensures Table(s.users, l.users) && Table(s.credentials, l.credentials) && Table(s.asgs, l.asgs)
    ensures s.groups.Keys == NamesOf(l.groups) && forall i | 0 <= i < |l.groups| :: GroupIn(l.groups[i], s.groups, s.members)
    ensures s.targets.Keys == set t | t in l.targets :: t.name
    ensures forall i | 0 <= i < |l.targets| :: l.targets[i].name in s.targets && s.targets[l.targets[i].name] == l.targets[i].target
    ensures s.policies.Keys == (set p | p in l.policies :: p.name) && forall n | n in s.policies :: PolicyItem(n, s.policies[n]) in l.policies
  {
    var hosts, groups := TargetItems(l.targets), GroupItems(l.groups);
    ghost var named, credited, scaled := l.users, l.users + l.credentials, l.users + l.credentials + l.asgs;
    DistinctStart(scaled + groups, hosts);
    DistinctStart(scaled, groups);
    DistinctStart(credited, l.asgs);
    DistinctStart(named, l.credentials);
    assert [] + l.users == l.users;
    var users, byUser := ReadItems(l.users, map[], []);
    var credentials, byCredential := ReadItems(l.credentials, byUser, named);
    var asgs, byAsg := ReadItems(l.asgs, byCredential, credited);
    var _, byGroup := ReadItems(groups, byAsg, scaled);
    var _, byID := ReadItems(hosts, byGroup, scaled + groups);
    var groupMap, members := ReadGroups(l.groups);
    var targets := ReadTargets(l.targets);
    var policies := ReadPolicies(l.policies);
    s := State(users, credentials, asgs, groupMap, members, targets, policies, byID);
    IndexedParts(byID, scaled + groups, hosts);
    IndexedParts(byID, scaled, groups);
    IndexedParts(byID, credited, l.asgs);
    IndexedParts(byID, named, l.credentials);
    TableLinked(s, users, l.users);
    TableLinked(s, credentials, l.credentials);
    TableLinked(s, asgs, l.asgs);
    GroupsLinked(s, l.groups);
    TargetsLinked(s, l.targets);
  }
}
