/**
 The index of model groups and their members, and how a requested model name is resolved to
 one of them. Every operation is one atomic step.
 */
module Registries {
  import opened Text
  import Rotations

  /** A row number: a signed 64-bit integer. */
  newtype Id = x: int | -0x8000_0000_0000_0000 <= x < 0x8000_0000_0000_0000

  datatype Group = Group(prefix: string, plugin: string, enabled: bool)

  datatype Member = Member(group: Id, name: string, enabled: bool)

  /** Groups and members by number, and the numbers of each group's members in ascending order. */
  datatype Index = Index(groups: map<Id, Group>, members: map<Id, Member>, order: map<Id, seq<Id>>)

  datatype Outcome = Done | NotFound | Conflict | Invalid | Failed

  /** A group and one of its members. */
  datatype Hit = Hit(group: Id, member: Id)

  // ---- what every operation keeps ----

  predicate Ascending(q: seq<Id>) {
    forall j, k | 0 <= j < k < |q| :: q[j] < q[k]
  }

  ghost predicate GroupsOk(ix: Index) {
    && 0 !in ix.groups
    && (forall g <- ix.groups :: ix.groups[g].prefix != "" && '/' !in ix.groups[g].prefix)
    && (forall g, h | g in ix.groups && h in ix.groups && g != h :: ix.groups[g].prefix != ix.groups[h].prefix)
  }

  /** The lists partition the members: each member is in the list of its group and in no other. */
  ghost predicate OrderOk(ix: Index) {
    && (forall g <- ix.order :: g in ix.groups && Ascending(ix.order[g]))
    && (forall g <- ix.order, m <- ix.order[g] :: m in ix.members && ix.members[m].group == g)
    && (forall m <- ix.members :: ix.members[m].group in ix.order && m in ix.order[ix.members[m].group])
  }

  ghost predicate NamesOk(ix: Index) {
    && (forall m <- ix.members :: ix.members[m].name != "")
    && (forall m, n | m in ix.members && n in ix.members && m != n ::
          ix.members[m].group != ix.members[n].group || ix.members[m].name != ix.members[n].name)
  }

  ghost predicate Sound(ix: Index) {
    GroupsOk(ix) && OrderOk(ix) && NamesOk(ix)
  }

  ghost predicate Named(ix: Index, name: string) {
    exists m <- ix.members :: ix.members[m].name == name
  }

  type Counter = n: nat | n < Rotations.WRAP

  /** Poll counters exist only for names that exist. */
  ghost predicate RoundsOk(ix: Index, rounds: map<string, Counter>) {
    forall name <- rounds :: Named(ix, name)
  }

  /** The members of a group, none if it has never had one. */
  function ListOf(ix: Index, g: Id): seq<Id> {
    if g in ix.order then ix.order[g] else []
  }

  lemma SoundParts(ix: Index)
    requires Sound(ix)
    ensures GroupsOk(ix) && OrderOk(ix) && NamesOk(ix)
  {
  }

  lemma GroupSaved(ix: Index, id: Id, g: Group)
    requires Sound(ix) && id != 0 && g.prefix != "" && '/' !in g.prefix
    requires forall h <- ix.groups | h != id :: ix.groups[h].prefix != g.prefix
    ensures Sound(ix.(groups := ix.groups[id := g]))
  {
    hide Ascending;
    var ix' := ix.(groups := ix.groups[id := g]);
    assert OrderOk(ix') && NamesOk(ix');
    hide OrderOk, NamesOk;
  }

  lemma AscendingAppend(q: seq<Id>, n: Id)
    requires Ascending(q) && forall m <- q :: m < n
    ensures Ascending(q + [n])
  {
    assert forall k | 0 <= k < |q| :: q[k] in q && (q + [n])[k] == q[k];
  }

  function WithMember(ix: Index, id: Id, m: Member): Index {
    ix.(members := ix.members[id := m], order := ix.order[m.group := ListOf(ix, m.group) + [id]])
  }

  lemma MemberAdded(ix: Index, id: Id, m: Member)
    requires Sound(ix) && m.group in ix.groups && m.name != ""
    requires forall n <- ix.members :: n < id
    requires forall n <- ix.members :: ix.members[n].group != m.group || ix.members[n].name != m.name
    ensures Sound(WithMember(ix, id, m))
  {
    hide GroupsOk, OrderOk, NamesOk, WithMember;
    OrderAdded(ix, id, m);
    NamesAdded(ix, id, m);
  }

  lemma NamesAdded(ix: Index, id: Id, m: Member)
    requires GroupsOk(ix) && NamesOk(ix) && m.name != ""
    requires forall n <- ix.members :: ix.members[n].group != m.group || ix.members[n].name != m.name
    ensures GroupsOk(WithMember(ix, id, m)) && NamesOk(WithMember(ix, id, m))
  {
    hide ListOf;
  }

  lemma OrderAdded(ix: Index, id: Id, m: Member)
    requires OrderOk(ix) && m.group in ix.groups
    requires forall n <- ix.members :: n < id
    ensures OrderOk(WithMember(ix, id, m))
  {
    hide Ascending;
    var ix' := WithMember(ix, id, m);
    var q := ListOf(ix, m.group);
    Short();
    assert forall n <- q :: n in ix.members;
    AscendingAppend(q, id);
    forall g <- ix'.order, n <- ix'.order[g]
      ensures n in ix'.members && ix'.members[n].group == g
    {
      if g == m.group {
        assert ix'.order[g] == q + [id];
      } else {
        assert g in ix.order && ix'.order[g] == ix.order[g] && n in ix.members && n < id;
      }
    }
    forall n <- ix'.members
      ensures ix'.members[n].group in ix'.order && n in ix'.order[ix'.members[n].group]
    {
      assert n == id || n in ListOf(ix, ix.members[n].group);
    }
  }

  lemma Short()
    ensures Ascending([])
  {
  }

  function Switched(ix: Index, id: Id, enabled: bool): Index
    requires id in ix.members
  {
    ix.(members := ix.members[id := ix.members[id].(enabled := enabled)])
  }

  lemma MemberChanged(ix: Index, id: Id, enabled: bool)
    requires Sound(ix) && id in ix.members
    ensures Sound(Switched(ix, id, enabled))
  {
    hide GroupsOk, OrderOk, NamesOk, Switched;
    OrderSwitched(ix, id, enabled);
    NamesSwitched(ix, id, enabled);
  }

  lemma OrderSwitched(ix: Index, id: Id, enabled: bool)
    requires OrderOk(ix) && id in ix.members
    ensures OrderOk(Switched(ix, id, enabled))
  {
    hide Ascending;
  }

  lemma NamesSwitched(ix: Index, id: Id, enabled: bool)
    requires GroupsOk(ix) && NamesOk(ix) && id in ix.members
    ensures GroupsOk(Switched(ix, id, enabled)) && NamesOk(Switched(ix, id, enabled))
  {
  }

  function WithoutGroup(ix: Index, id: Id): Index {
    Index(ix.groups - {id}, map m | m in ix.members && ix.members[m].group != id :: ix.members[m], ix.order - {id})
  }

  lemma GroupDeleted(ix: Index, id: Id)
    requires Sound(ix)
    ensures Sound(WithoutGroup(ix, id))
  {
    hide GroupsOk, OrderOk, NamesOk, WithoutGroup;
    OrderWithoutGroup(ix, id);
    NamesWithoutGroup(ix, id);
  }

  lemma OrderWithoutGroup(ix: Index, id: Id)
    requires OrderOk(ix)
    ensures OrderOk(WithoutGroup(ix, id))
  {
    hide Ascending;
  }

  lemma NamesWithoutGroup(ix: Index, id: Id)
    requires GroupsOk(ix) && NamesOk(ix)
    ensures GroupsOk(WithoutGroup(ix, id)) && NamesOk(WithoutGroup(ix, id))
  {
  }

  /** A list without one of its elements. */
  function Without(q: seq<Id>, id: Id): seq<Id> {
    if q == [] then [] else if q[0] == id then q[1..] else [q[0]] + Without(q[1..], id)
  }

  lemma AscendingCons(n: Id, q: seq<Id>)
    requires Ascending(q) && forall m <- q :: n < m
    ensures Ascending([n] + q)
  {
    assert forall k | 0 <= k < |q| :: q[k] in q && ([n] + q)[k + 1] == q[k];
  }

  lemma {:induction false} WithoutMeaning(q: seq<Id>, id: Id)
    requires Ascending(q)
    ensures Ascending(Without(q, id))
    ensures forall m :: m in Without(q, id) <==> m in q && m != id
  {
    if q != [] {
      WithoutMeaning(q[1..], id);
      assert q == [q[0]] + q[1..];
      assert forall m <- q[1..] :: m > q[0];
      if q[0] != id {
        AscendingCons(q[0], Without(q[1..], id));
      }
    }
  }

  function WithoutMember(ix: Index, id: Id): Index
    requires id in ix.members
  {
    var g := ix.members[id].group;
    ix.(members := ix.members - {id}, order := ix.order[g := Without(ListOf(ix, g), id)])
  }

  lemma MemberDeleted(ix: Index, id: Id)
    requires Sound(ix) && id in ix.members
    ensures Sound(WithoutMember(ix, id))
  {
    var g := ix.members[id].group;
    assert Ascending(ix.order[g]);
    WithoutMeaning(ix.order[g], id);
    OrderWithout(ix, id);
    hide Ascending, Without, OrderOk;
  }

  lemma OrderWithout(ix: Index, id: Id)
    requires OrderOk(ix) && id in ix.members
    requires var g := ix.members[id].group;
             && Ascending(Without(ListOf(ix, g), id))
             && forall m :: m in Without(ListOf(ix, g), id) <==> m in ListOf(ix, g) && m != id
    ensures OrderOk(WithoutMember(ix, id))
  {
    hide Ascending, Without;
    var ix' := WithoutMember(ix, id);
    forall h <- ix'.order, m <- ix'.order[h]
      ensures m in ix'.members && ix'.members[m].group == h
    {
      assert m in ix.order[h];
    }
  }

  // ---- names ----

  /** The model name starts with the prefix of this enabled group. */
  predicate Prefixes(ix: Index, g: Id, model: string) {
    g in ix.groups && ix.groups[g].enabled && ix.groups[g].prefix + "/" <= model
  }

  predicate HasName(ix: Index, g: Id, name: string) {
    exists m <- ListOf(ix, g) :: m in ix.members && ix.members[m].name == name
  }

  /** The enabled groups that offer a short name; disabled members count. */
  ghost function Offers(ix: Index, name: string): set<Id> {
    set g | g in ix.order && g in ix.groups && ix.groups[g].enabled && HasName(ix, g, name)
  }

  ghost predicate IsMember(ix: Index, hit: Hit, name: string) {
    && hit.group in ix.groups && ix.groups[hit.group].enabled && hit.member in ix.members
    && ix.members[hit.member].group == hit.group && ix.members[hit.member].name == name
  }

  /** What a name with the prefix of group g stands for: the member whose name is the rest. */
  ghost predicate FullName(ix: Index, g: Id, model: string, hit: Option<Hit>, poll: nat)
    requires Prefixes(ix, g, model)
  {
    var short := model[|ix.groups[g].prefix| + 1..];
    if hit == None then poll == 0 && !HasName(ix, g, short)
    else poll == 1 && hit.value.group == g && IsMember(ix, hit.value, short)
  }

  /** What a short name stands for: the offering group with the least number. */
  ghost predicate ShortName(ix: Index, model: string, hit: Option<Hit>, poll: nat) {
    && poll == |Offers(ix, model)|
    && (hit == None <==> Offers(ix, model) == {})
    && (hit.Some? ==> IsMember(ix, hit.value, model) && forall g <- Offers(ix, model) :: hit.value.group <= g)
  }

  /** What a model name stands for, said without any order of looking. */
  ghost predicate Resolves(ix: Index, model: string, hit: Option<Hit>, poll: nat) {
    && (forall g | Prefixes(ix, g, model) :: FullName(ix, g, model, hit, poll))
    && ((forall g <- ix.groups :: !Prefixes(ix, g, model)) ==> ShortName(ix, model, hit, poll))
  }

  lemma SamePrefix(a: string, b: string, model: string)
    requires '/' !in a && '/' !in b && a + "/" <= model && b + "/" <= model
    ensures a == b
  {
    assert model == a + ['/'] + model[|a| + 1..] == b + ['/'] + model[|b| + 1..];
    FindAt(a, '/', model[|a| + 1..]);
    FindAt(b, '/', model[|b| + 1..]);
    assert a == model[..|a|] && b == model[..|b|];
  }

  /** At most one enabled group can be meant by a prefix. */
  lemma OnePrefix(ix: Index, g: Id, h: Id, model: string)
    requires GroupsOk(ix) && Prefixes(ix, g, model) && Prefixes(ix, h, model)
    ensures g == h
  {
    SamePrefix(ix.groups[g].prefix, ix.groups[h].prefix, model);
  }

  lemma OneMember(ix: Index, a: Hit, b: Hit, name: string)
    requires NamesOk(ix) && IsMember(ix, a, name) && IsMember(ix, b, name) && a.group == b.group
    ensures a == b
  {
  }

  /** A name stands for one thing only. */
  lemma ResolvesOnce(ix: Index, model: string, a: Option<Hit>, m: nat, b: Option<Hit>, n: nat)
    requires Sound(ix) && Resolves(ix, model, a, m) && Resolves(ix, model, b, n)
    ensures a == b && m == n
  {
    hide Offers;
    if g :| g in ix.groups && Prefixes(ix, g, model) {
      assert FullName(ix, g, model, a, m) && FullName(ix, g, model, b, n);
      var short := model[|ix.groups[g].prefix| + 1..];
      if a.Some? {
        MemberIsNamed(ix, a.value, short);
      }
      if b.Some? {
        MemberIsNamed(ix, b.value, short);
      }
    } else {
      assert ShortName(ix, model, a, m) && ShortName(ix, model, b, n);
      if a.Some? && b.Some? {
        MemberOffers(ix, a.value, model);
        MemberOffers(ix, b.value, model);
      }
    }
  }

  lemma MemberIsNamed(ix: Index, hit: Hit, name: string)
    requires OrderOk(ix) && IsMember(ix, hit, name)
    ensures HasName(ix, hit.group, name)
  {
    assert hit.member in ListOf(ix, hit.group);
  }

  lemma MemberOffers(ix: Index, hit: Hit, name: string)
    requires OrderOk(ix) && IsMember(ix, hit, name)
    ensures hit.group in Offers(ix, name)
  {
    MemberIsNamed(ix, hit, name);
  }

  /** For every enabled group and each of its members, prefix/name stands for exactly that pair. */
  lemma FullNameResolves(ix: Index, hit: Hit, found: Option<Hit>, poll: nat)
    requires Sound(ix) && hit.group in ix.groups && ix.groups[hit.group].enabled
    requires hit.member in ix.members && ix.members[hit.member].group == hit.group
    requires Resolves(ix, ix.groups[hit.group].prefix + "/" + ix.members[hit.member].name, found, poll)
    ensures found == Some(hit) && poll == 1
  {
    var prefix, name := ix.groups[hit.group].prefix, ix.members[hit.member].name;
    var model := prefix + "/" + name;
    assert prefix + "/" <= model && model[|prefix| + 1..] == name;
    assert FullName(ix, hit.group, model, found, poll);
    MemberIsNamed(ix, hit, name);
    if found.Some? {
      OneMember(ix, hit, found.value, name);
    }
  }

  /** A member of an enabled group; whether the member itself is enabled makes no difference. */
  predicate Offered(ix: Index, h: Hit) {
    && h.group in ix.groups && ix.groups[h.group].enabled
    && h.member in ix.members && ix.members[h.member].group == h.group
  }

  /** Some enabled group has the prefix that the name begins with. */
  predicate Prefixed(ix: Index, model: string) {
    exists g <- ix.groups :: ix.groups[g].enabled && ix.groups[g].prefix + "/" <= model
  }

  /**
   What a name stands for, in full: prefix/name in an enabled group, or, if no enabled group has
   the prefix, a member of that name in the enabled group with the least number; otherwise nothing.
   */
  lemma ResolvesMeaning(ix: Index, model: string, hit: Option<Hit>, poll: nat)
    requires Sound(ix) && Resolves(ix, model, hit, poll)
    ensures hit.Some? ==>
              && Offered(ix, hit.value)
              && var name := ix.members[hit.value.member].name;
                 if Prefixed(ix, model) then model == ix.groups[hit.value.group].prefix + "/" + name
                 else
                   && model == name
                   && forall h | Offered(ix, h) && ix.members[h.member].name == model :: hit.value.group <= h.group
    ensures hit == None <==>
              forall h | Offered(ix, h) ::
                if Prefixed(ix, model) then model != ix.groups[h.group].prefix + "/" + ix.members[h.member].name
                else model != ix.members[h.member].name
  {
    hide Sound, OrderOk, NamesOk, GroupsOk, Offers, Resolves;
    SoundParts(ix);
    if Prefixed(ix, model) {
      var g :| g in ix.groups && ix.groups[g].enabled && ix.groups[g].prefix + "/" <= model;
      FullMeaning(ix, g, model, hit, poll);
    } else {
      ShortMeaning(ix, model, hit, poll);
    }
  }

  lemma FullMeaning(ix: Index, g: Id, model: string, hit: Option<Hit>, poll: nat)
    requires OrderOk(ix) && GroupsOk(ix) && Resolves(ix, model, hit, poll) && Prefixes(ix, g, model)
    ensures hit.Some? ==>
              && Offered(ix, hit.value)
              && model == ix.groups[hit.value.group].prefix + "/" + ix.members[hit.value.member].name
    ensures hit == None <==>
              forall h | Offered(ix, h) :: model != ix.groups[h.group].prefix + "/" + ix.members[h.member].name
  {
    var prefix := ix.groups[g].prefix;
    var short := model[|prefix| + 1..];
    assert model == prefix + "/" + short;
    assert FullName(ix, g, model, hit, poll);
    hide Resolves, GroupsOk, OrderOk, HasName;
    forall h | Offered(ix, h)
      ensures model == ix.groups[h.group].prefix + "/" + ix.members[h.member].name ==> HasName(ix, g, short)
    {
      NotOffered(ix, g, h, model, short);
    }
    if HasName(ix, g, short) {
      Found(ix, g, short);
    }
  }

  lemma Found(ix: Index, g: Id, short: string)
    requires OrderOk(ix) && HasName(ix, g, short) && g in ix.groups && ix.groups[g].enabled
    ensures exists h :: Offered(ix, h) && h.group == g && ix.members[h.member].name == short
  {
    var m :| m in ListOf(ix, g) && m in ix.members && ix.members[m].name == short;
    assert Offered(ix, Hit(g, m));
  }

  lemma NotOffered(ix: Index, g: Id, h: Hit, model: string, short: string)
    requires OrderOk(ix) && GroupsOk(ix) && Offered(ix, h) && Prefixes(ix, g, model)
    requires model == ix.groups[g].prefix + "/" + short
    ensures model == ix.groups[h.group].prefix + "/" + ix.members[h.member].name ==> HasName(ix, g, short)
  {
    var name := ix.members[h.member].name;
    if model == ix.groups[h.group].prefix + "/" + name {
      assert ix.groups[h.group].prefix + "/" <= model;
      OnePrefix(ix, g, h.group, model);
      assert model[|ix.groups[g].prefix| + 1..] == short == name;
      MemberIsNamed(ix, h, short);
    }
  }

  lemma ShortMeaning(ix: Index, model: string, hit: Option<Hit>, poll: nat)
    requires OrderOk(ix) && Resolves(ix, model, hit, poll) && !Prefixed(ix, model)
    ensures hit.Some? ==>
              && Offered(ix, hit.value) && ix.members[hit.value.member].name == model
              && forall h | Offered(ix, h) && ix.members[h.member].name == model :: hit.value.group <= h.group
    ensures hit == None <==> forall h | Offered(ix, h) :: ix.members[h.member].name != model
  {
    assert ShortName(ix, model, hit, poll);
    hide Resolves;
    forall h | Offered(ix, h) && ix.members[h.member].name == model
      ensures h.group in Offers(ix, model)
    {
      MemberOffers(ix, h, model);
    }
    if g :| g in Offers(ix, model) {
      var m :| m in ListOf(ix, g) && m in ix.members && ix.members[m].name == model;
      assert Offered(ix, Hit(g, m));
    }
  }

  // ---- who offers a short name ----

  /** Hits in ascending order of their groups. */
  predicate ByGroup(q: seq<Hit>) {
    forall j, k | 0 <= j < k < |q| :: q[j].group < q[k].group
  }

  /** All members of this name in enabled groups, by group. */
  ghost predicate IsList(ix: Index, name: string, q: seq<Hit>) {
    ByGroup(q) && forall h :: h in q <==> IsMember(ix, h, name)
  }

  /** Puts a hit where it belongs. */
  method Insert(q: seq<Hit>, n: Hit) returns (r: seq<Hit>)
    requires ByGroup(q) && forall h <- q :: h.group != n.group
    ensures ByGroup(r) && |r| == |q| + 1
    ensures forall h :: h in r <==> h in q || h == n
  {
    var i := 0;
    while i < |q| && q[i].group < n.group
      invariant i <= |q|
      invariant forall k | 0 <= k < i :: q[k].group < n.group
    {
      i := i + 1;
    }
    r := q[..i] + [n] + q[i..];
    assert q == q[..i] + q[i..];
    forall k | i <= k < |q|
      ensures n.group < q[k].group
    {
      assert q[i] in q && q[i].group <= q[k].group;
    }
  }

  /** Sorting by group, as the library does it; the order of what comes in makes no difference. */
  method SortHits(hits: seq<Hit>) returns (q: seq<Hit>)
    requires forall j, k | 0 <= j < k < |hits| :: hits[j].group != hits[k].group
    ensures ByGroup(q) && |q| == |hits|
    ensures forall h :: h in q <==> h in hits
  {
    q := [];
    var i := 0;
    while i < |hits|
      invariant i <= |hits|
      invariant ByGroup(q) && |q| == i
      invariant forall h :: h in q <==> h in hits[..i]
    {
      assert hits[..i + 1] == hits[..i] + [hits[i]];
      q := Insert(q, hits[i]);
      i := i + 1;
    }
    assert hits[..i] == hits;
  }

  lemma NoneIn(b: seq<Hit>)
    ensures b == [] || exists h :: h in b
  {
    if b != [] {
      assert b[0] in b;
    }
  }

  /** There is only one such list. */
  lemma {:induction false} OneList(a: seq<Hit>, b: seq<Hit>)
    requires ByGroup(a) && ByGroup(b) && forall h :: h in a <==> h in b
    ensures a == b
  {
    if a == [] {
      NoneIn(b);
    } else {
      assert a[0] in b && b != [];
      assert b[0] in a;
      assert a[0] == b[0];
      assert a == [a[0]] + a[1..] && b == [b[0]] + b[1..];
      forall h
        ensures h in a[1..] <==> h in b[1..]
      {
        assert h in a[1..] ==> h in a && h.group > a[0].group;
        assert h in b[1..] ==> h in b && h.group > b[0].group;
      }
      OneList(a[1..], b[1..]);
    }
  }

  /** The groups of a list. */
  function GroupsOf(q: seq<Hit>): set<Id> {
    set h | h in q :: h.group
  }

  lemma LastGroup(q: seq<Hit>, h: Hit)
    requires forall r <- q :: r.group != h.group
    ensures h.group !in GroupsOf(q) && GroupsOf(q + [h]) == GroupsOf(q) + {h.group}
  {
  }

  lemma {:induction false} GroupsCount(q: seq<Hit>)
    requires ByGroup(q)
    ensures |GroupsOf(q)| == |q|
  {
    if q != [] {
      var h, rest := q[|q| - 1], q[..|q| - 1];
      GroupsCount(rest);
      assert q == rest + [h];
      LastGroup(rest, h);
    }
  }

  lemma ListCount(ix: Index, name: string, q: seq<Hit>)
    requires OrderOk(ix) && IsList(ix, name, q)
    ensures |q| == |Offers(ix, name)|
  {
    forall g
      ensures g in GroupsOf(q) <==> g in Offers(ix, name)
    {
      ListGroups(ix, name, q, g);
    }
    hide Offers, GroupsOf, IsMember;
    assert GroupsOf(q) == Offers(ix, name);
    GroupsCount(q);
  }

  lemma ListGroups(ix: Index, name: string, q: seq<Hit>, g: Id)
    requires OrderOk(ix) && IsList(ix, name, q)
    ensures g in GroupsOf(q) <==> g in Offers(ix, name)
  {
    if g in GroupsOf(q) {
      var h :| h in q && h.group == g;
      MemberOffers(ix, h, name);
    }
    if g in Offers(ix, name) {
      var m :| m in ListOf(ix, g) && m in ix.members && ix.members[m].name == name;
      assert IsMember(ix, Hit(g, m), name);
      assert Hit(g, m) in q && Hit(g, m).group == g;
    }
  }

  /** The first of the list is what a short name stands for. */
  lemma ListResolves(ix: Index, model: string, q: seq<Hit>)
    requires OrderOk(ix) && IsList(ix, model, q)
    ensures ShortName(ix, model, if q == [] then None else Some(q[0]), |q|)
  {
    ListCount(ix, model, q);
    if q != [] {
      assert q[0] in q;
      forall g <- Offers(ix, model)
        ensures q[0].group <= g
      {
        var m :| m in ListOf(ix, g) && m in ix.members && ix.members[m].name == model;
        assert IsMember(ix, Hit(g, m), model);
        assert Hit(g, m) in q;
      }
      MemberOffers(ix, q[0], model);
    } else {
      assert Offers(ix, model) == {};
    }
  }

  /** The members of a group are exactly those in its list. */
  lemma ListMeaning(ix: Index, g: Id)
    requires OrderOk(ix)
    ensures forall m :: m in ListOf(ix, g) <==> m in ix.members && ix.members[m].group == g
  {
  }

  lemma SameMembers(ix: Index, ix': Index, id: Id)
    requires OrderOk(ix) && ix'.groups == ix.groups - {id} && ix'.order == ix.order - {id}
    requires ix'.members == map m | m in ix.members && m !in ListOf(ix, id) :: ix.members[m]
    ensures ix' == WithoutGroup(ix, id)
  {
    ListMeaning(ix, id);
    var a, b := ix'.members, WithoutGroup(ix, id).members;
    assert a.Keys == b.Keys;
    assert a == b;
  }

  /** Names of other members stay. */
  lemma OtherNames(ix: Index, id: Id, rounds: map<string, Counter>)
    requires RoundsOk(ix, rounds) && id in ix.members
    ensures forall name <- rounds | name != ix.members[id].name :: Named(WithoutMember(ix, id), name)
  {
    forall name <- rounds | name != ix.members[id].name
      ensures Named(WithoutMember(ix, id), name)
    {
      var m :| m in ix.members && ix.members[m].name == name;
      assert m in WithoutMember(ix, id).members;
    }
  }

  lemma CleanedUp(ix: Index, rounds: map<string, Counter>, name: string)
    requires forall n <- rounds | n != name :: Named(ix, n)
    ensures RoundsOk(ix, if Named(ix, name) then rounds else rounds - {name})
  {
    hide Named;
  }

  /** The counted names that are left without a member belonged to the group. */
  lemma GroupNames(ix: Index, id: Id, names: seq<string>, rounds: map<string, Counter>)
    requires OrderOk(ix) && RoundsOk(ix, rounds) && |names| == |ListOf(ix, id)|
    requires forall k | 0 <= k < |names| :: ListOf(ix, id)[k] in ix.members && names[k] == ix.members[ListOf(ix, id)[k]].name
    ensures forall name <- rounds :: Named(WithoutGroup(ix, id), name) || name in names
  {
    forall name <- rounds
      ensures Named(WithoutGroup(ix, id), name) || name in names
    {
      assert Named(ix, name);
      var m :| m in ix.members && ix.members[m].name == name;
      if ix.members[m].group == id {
        assert m in ListOf(ix, id);
        var k :| 0 <= k < |names| && ListOf(ix, id)[k] == m;
        assert names[k] == name;
      } else {
        assert m in WithoutGroup(ix, id).members;
      }
    }
  }

  class Registry {
    var byGroup: map<Id, Group>
    var byMember: map<Id, Member>
    var memberOrder: map<Id, seq<Id>>
    var rrRound: map<string, Counter>

    constructor ()
      ensures Valid() && Now() == Index(map[], map[], map[]) && rrRound == map[]
    {
      byGroup, byMember, memberOrder, rrRound := map[], map[], map[], map[];
    }

    function Now(): Index
      reads `byGroup, `byMember, `memberOrder
    {
      Index(byGroup, byMember, memberOrder)
    }

    ghost predicate Valid()
      reads this
    {
      Sound(Now()) && RoundsOk(Now(), rrRound)
    }

    /**
     Inserts a group (number 0) or updates one. A number that is not positive and not 0 is
     stored as it is. The database gives new numbers that were never used.
     */
    method SaveGroup(id: Id, g: Group, pluginOk: bool, dbOk: bool, newId: Id) returns (r: Outcome)
      requires Valid() && newId !in byGroup && newId != 0
      modifies `byGroup
      ensures Valid()
      ensures r == Done <==>
                && g.prefix != "" && '/' !in g.prefix && g.plugin != "" && pluginOk
                && (id > 0 ==> id in old(byGroup) && old(byGroup)[id].plugin == g.plugin)
                && (forall h <- old(byGroup) | h != id :: old(byGroup)[h].prefix != g.prefix)
                && dbOk
      ensures byGroup == if r == Done then old(byGroup)[if id == 0 then newId else id := g] else old(byGroup)
      ensures r == Conflict ==> exists h <- old(byGroup) :: h != id && old(byGroup)[h].prefix == g.prefix
    {
      assert 0 !in byGroup;
      hide Sound, RoundsOk, Named;
      if g.prefix == "" || '/' in g.prefix || g.plugin == "" || !pluginOk {
        return Invalid;
      }
      var dup := PrefixTaken(id, g.prefix);
      if id > 0 {
        if id !in byGroup {
          return NotFound;
        } else if byGroup[id].plugin != g.plugin {
          return Invalid;
        }
      }
      if dup {
        return Conflict;
      }
      if !dbOk {
        return Failed;
      }
      GroupSaved(Now(), if id == 0 then newId else id, g);
      StillNamed(Now(), Now().(groups := byGroup[if id == 0 then newId else id := g]), rrRound);
      byGroup := byGroup[if id == 0 then newId else id := g];
      r := Done;
    }

    /** Whether another group has this prefix. */
    method PrefixTaken(id: Id, prefix: string) returns (dup: bool)
      ensures dup <==> exists h <- byGroup :: h != id && byGroup[h].prefix == prefix
    {
      dup := false;
      var todo := byGroup.Keys;
      while todo != {}
        invariant todo <= byGroup.Keys
        invariant dup <==> exists h <- byGroup.Keys - todo :: h != id && byGroup[h].prefix == prefix
        decreases |todo|
      {
        var h :| h in todo;
        todo := todo - {h};
        if byGroup[h].prefix == prefix && h != id {
          dup := true;
        }
      }
    }

    /** Inserts a member (number 0) or changes whether one is enabled. */
    method SaveMember(id: Id, m: Member, dbOk: bool, newId: Id) returns (r: Outcome)
      requires Valid() && forall n <- byMember :: n < newId
      modifies `byMember, `memberOrder
      ensures Valid()
      ensures r == Done <==>
                && m.name != "" && m.group in byGroup && dbOk
                && if id == 0 then
                     forall n <- old(byMember) :: old(byMember)[n].group != m.group || old(byMember)[n].name != m.name
                   else id in old(byMember) && old(byMember)[id].group == m.group && old(byMember)[id].name == m.name
      ensures r == Done && id == 0 ==> Now() == WithMember(old(Now()), newId, m)
      ensures r == Done && id != 0 ==> byMember == old(byMember)[id := m] && memberOrder == old(memberOrder)
      ensures r != Done ==> Now() == old(Now())
    {
      hide GroupsOk, OrderOk, NamesOk, RoundsOk, Named;
      if m.name == "" {
        return Invalid;
      }
      if m.group !in byGroup {
        return NotFound;
      }
      if id == 0 {
        var todo := byMember.Keys;
        while todo != {}
          modifies {}
          invariant todo <= byMember.Keys
          invariant forall n <- byMember.Keys - todo :: byMember[n].group != m.group || byMember[n].name != m.name
          decreases |todo|
        {
          var n :| n in todo;
          if byMember[n].group == m.group && byMember[n].name == m.name {
            return Conflict;
          }
          todo := todo - {n};
        }
      } else if id !in byMember {
        return NotFound;
      } else if byMember[id].group != m.group || byMember[id].name != m.name {
        return Invalid;
      }
      if !dbOk {
        return Failed;
      }
      if id == 0 {
        MemberAdded(Now(), newId, m);
        StillNamed(Now(), WithMember(Now(), newId, m), rrRound);
      } else {
        MemberChanged(Now(), id, m.enabled);
        StillNamed(Now(), Now().(members := byMember[id := m]), rrRound);
        assert byMember[id].(enabled := m.enabled) == m;
      }
      IndexMember(if id == 0 then newId else id, m);
      r := Done;
    }

    /** A member that is already tracked is only overwritten. */
    method IndexMember(id: Id, m: Member)
      modifies `byMember, `memberOrder
      ensures byMember == old(byMember)[id := m]
      ensures memberOrder == if id in old(byMember) then old(memberOrder)
                             else old(memberOrder)[m.group := ListOf(old(Now()), m.group) + [id]]
    {
      var tracked := id in byMember;
      byMember := byMember[id := m];
      if !tracked {
        memberOrder := memberOrder[m.group := (if m.group in memberOrder then memberOrder[m.group] else []) + [id]];
      }
    }

    /** Deletes a group with its members, and the counters of names that nobody has any more. */
    method DeleteGroup(id: Id, dbOk: bool) returns (r: Outcome)
      requires Valid()
      modifies this
      ensures Valid()
      ensures r == if id !in old(byGroup) then NotFound else if !dbOk then Failed else Done
      ensures r == Done ==> Now() == WithoutGroup(old(Now()), id)
      ensures r == Done ==> CountersKept(old(rrRound))
      ensures r != Done ==> Now() == old(Now()) && rrRound == old(rrRound)
    {
      hide Sound, RoundsOk, CountersKept, WithoutGroup;
      if id !in byGroup {
        return NotFound;
      }
      if !dbOk {
        return Failed;
      }
      ForgetGroup(id);
      r := Done;
    }

    method ForgetGroup(id: Id)
      requires Valid() && id in byGroup
      modifies this
      ensures Valid() && Now() == WithoutGroup(old(Now()), id) && CountersKept(old(rrRound))
    {
      SoundParts(Now());
      ListMeaning(Now(), id);
      hide Sound, RoundsOk, Named, CountersKept, OrderOk, GroupsOk, NamesOk;
      var ids := if id in memberOrder then memberOrder[id] else [];
      assert ids == ListOf(Now(), id);
      var members := byMember;
      assert forall k | 0 <= k < |ids| :: ids[k] in ids && ids[k] in members;
      var names := seq(|ids|, k requires 0 <= k < |ids| && ids[k] in members => members[ids[k]].name);
      GroupDeleted(Now(), id);
      GroupNames(Now(), id, names, rrRound);
      byGroup := byGroup - {id};
      memberOrder := memberOrder - {id};
      byMember := map m | m in byMember && m !in ids :: byMember[m];
      SameMembers(old(Now()), Now(), id);
      CleanupRounds(names);
    }

    method CleanupRounds(names: seq<string>)
      requires Sound(Now()) && forall name <- rrRound :: Named(Now(), name) || name in names
      modifies `rrRound
      ensures RoundsOk(Now(), rrRound) && CountersKept(old(rrRound))
    {
      hide Sound, Named;
      var i := 0;
      while i < |names|
        invariant i <= |names|
        invariant forall name <- rrRound :: Named(Now(), name) || name in names[i..]
        invariant forall name <- old(rrRound) | Named(Now(), name) :: name in rrRound && rrRound[name] == old(rrRound)[name]
      {
        assert names[i..] == [names[i]] + names[i + 1..];
        CleanupRound(names[i]);
        i := i + 1;
      }
    }

    method DeleteMember(id: Id, dbOk: bool) returns (r: Outcome)
      requires Valid()
      modifies this
      ensures Valid()
      ensures r == if id !in old(byMember) then NotFound else if !dbOk then Failed else Done
      ensures r == Done ==> Now() == WithoutMember(old(Now()), id)
      ensures r == Done ==> CountersKept(old(rrRound))
      ensures r != Done ==> Now() == old(Now()) && rrRound == old(rrRound)
    {
      hide Sound, RoundsOk, CountersKept, WithoutMember;
      if id !in byMember {
        return NotFound;
      }
      if !dbOk {
        return Failed;
      }
      Forget(id);
      r := Done;
    }

    /** The counters of names that still exist are as they were. */
    ghost predicate CountersKept(rounds: map<string, Counter>)
      reads this
    {
      forall name <- rounds | Named(Now(), name) :: name in rrRound && rrRound[name] == rounds[name]
    }

    /** Takes a member out of the index, and its name out of the counters if nobody else has it. */
    method Forget(id: Id)
      requires Valid() && id in byMember
      modifies this
      ensures Valid() && Now() == WithoutMember(old(Now()), id) && CountersKept(old(rrRound))
    {
      hide Sound, RoundsOk, Named, Without;
      var m := byMember[id];
      MemberDeleted(Now(), id);
      OtherNames(Now(), id, rrRound);
      memberOrder := memberOrder[m.group := Without(if m.group in memberOrder then memberOrder[m.group] else [], id)];
      byMember := byMember - {id};
      assert Now() == WithoutMember(old(Now()), id);
      hide WithoutMember;
      CleanedUp(Now(), rrRound, m.name);
      CleanupRound(m.name);
    }

    /** Drops the counter of a name that no group has any more. */
    method CleanupRound(name: string)
      requires Sound(Now())
      modifies `rrRound
      ensures rrRound == if Named(Now(), name) then old(rrRound) else old(rrRound) - {name}
    {
      var n := PollNameCount(name);
      if n > 0 {
        return;
      }
      rrRound := rrRound - {name};
    }

    /** How many groups have a member of this name, enabled or not. */
    method PollNameCount(name: string) returns (n: nat)
      requires Sound(Now())
      ensures n == |Namers(Now(), memberOrder.Keys, name)|
      ensures n > 0 <==> Named(Now(), name)
    {
      ghost var ix, seen := Now(), {};
      NamedSomewhere(ix, name);
      NoneOrSome(ix, memberOrder.Keys, name);
      hide HasName, Named, Sound, Namers;
      n := 0;
      var todo := memberOrder.Keys;
      NoNamers(ix, name);
      while todo != {}
        invariant seen + todo == memberOrder.Keys && seen !! todo
        invariant n == |Namers(ix, seen, name)|
        decreases |todo|
      {
        var g :| g in todo;
        OneMoreGroup(ix, seen, g, name);
        MovedOver(seen, todo, g, memberOrder.Keys);
        todo, seen := todo - {g}, seen + {g};
        var m, found := FindName(g, name);
        if found {
          n := n + 1;
        }
      }
      assert seen == memberOrder.Keys;
    }

    /** The first member of a group that has this name. */
    method FindName(g: Id, name: string) returns (m: Id, found: bool)
      requires Sound(Now())
      ensures found == HasName(Now(), g, name)
      ensures found ==> m in ListOf(Now(), g) && m in byMember && byMember[m].name == name
    {
      ListMeaning(Now(), g);
      hide Sound;
      var q := if g in memberOrder then memberOrder[g] else [];
      assert q == ListOf(Now(), g);
      m, found := 0, false;
      var i := 0;
      while i < |q|
        invariant i <= |q|
        invariant forall k | 0 <= k < i :: q[k] in byMember && byMember[q[k]].name != name
      {
        assert q[i] in q;
        if byMember[q[i]].name == name {
          return q[i], true;
        }
        i := i + 1;
      }
    }

    /** The members of one group that have this name: one at most. */
    method HitsIn(g: Id, name: string) returns (hits: seq<Hit>)
      requires Sound(Now()) && g in byGroup && byGroup[g].enabled
      ensures |hits| <= 1
      ensures forall h :: h in hits <==> h.group == g && IsMember(Now(), h, name)
    {
      ListMeaning(Now(), g);
      SoundParts(Now());
      hide Sound, OrderOk, GroupsOk;
      var q := if g in memberOrder then memberOrder[g] else [];
      assert q == ListOf(Now(), g);
      hits := [];
      var i := 0;
      while i < |q|
        invariant i <= |q|
        invariant forall h :: h in hits <==> h.group == g && h.member in q[..i] && byMember[h.member].name == name
        invariant |hits| <= 1
      {
        assert q[i] in q && q[..i + 1] == q[..i] + [q[i]];
        if byMember[q[i]].name == name {
          assert Ascending(q) by { ListAscends(Now(), g); }
          NoneIn(hits);
          hits := hits + [Hit(g, q[i])];
        }
        i := i + 1;
      }
      assert q[..i] == q;
    }

    /** The members that a short name may mean, gathered in whatever order the map yields the groups. */
    method Collect(name: string) returns (hits: seq<Hit>)
      requires Sound(Now())
      ensures forall j, k | 0 <= j < k < |hits| :: hits[j].group != hits[k].group
      ensures forall h :: h in hits <==> IsMember(Now(), h, name)
    {
      SoundParts(Now());
      OrderGroups(Now());
      hide Sound, OrderOk, GroupsOk, NamesOk;
      hits := [];
      var todo := memberOrder.Keys;
      while todo != {}
        invariant todo <= memberOrder.Keys
        invariant forall h :: h in hits <==> h.group in memberOrder.Keys - todo && IsMember(Now(), h, name)
        invariant forall j, k | 0 <= j < k < |hits| :: hits[j].group != hits[k].group
        decreases |todo|
      {
        var g :| g in todo;
        ghost var before := hits;
        assert forall k | 0 <= k < |before| :: before[k] in before && before[k].group != g;
        todo := todo - {g};
        if !byGroup[g].enabled {
          continue;
        }
        var found := HitsIn(g, name);
        assert forall k | 0 <= k < |found| :: found[k] in found && found[k].group == g;
        hits := hits + found;
      }
    }

    /** What a model name stands for, and how many groups offer it when it is short. */
    method Resolve(model: string) returns (hit: Option<Hit>, poll: nat)
      requires Sound(Now())
      ensures Resolves(Now(), model, hit, poll)
    {
      hide Sound, OrderOk, GroupsOk, NamesOk;
      SoundParts(Now());
      var best: int := -1;
      var prefixGroup: Option<Id> := None;
      var todo := byGroup.Keys;
      while todo != {}
        invariant todo <= byGroup.Keys
        invariant prefixGroup == None <==> best == -1
        invariant prefixGroup == None ==> forall g <- byGroup.Keys - todo :: !Prefixes(Now(), g, model)
        invariant prefixGroup.Some? ==> Prefixes(Now(), prefixGroup.value, model)
        decreases |todo|
      {
        var g :| g in todo;
        todo := todo - {g};
        if !byGroup[g].enabled {
          continue;
        }
        if !(byGroup[g].prefix + "/" <= model) {
          continue;
        }
        if |byGroup[g].prefix| > best {
          best := |byGroup[g].prefix|;
          prefixGroup := Some(g);
        }
      }
      if prefixGroup.Some? {
        var g := prefixGroup.value;
        var short := model[|byGroup[g].prefix| + 1..];
        var m, found := FindName(g, short);
        ListMeaning(Now(), g);
        hit, poll := if found then Some(Hit(g, m)) else None, if found then 1 else 0;
        FullOnly(Now(), g, model, hit, poll);
        return;
      }
      hide Prefixes;
      var hits := Collect(model);
      var q := SortHits(hits);
      ListResolves(Now(), model, q);
      hit, poll := if q == [] then None else Some(q[0]), |q|;
    }

    /** The next value of a name's counter, which is made when first needed and wraps around in the end. */
    method NextRound(name: string) returns (n: Counter)
      requires Valid() && Named(Now(), name)
      modifies `rrRound
      ensures Valid() && n == Rotations.Wrap(Round(old(rrRound), name) + 1)
      ensures rrRound == old(rrRound)[name := n]
    {
      hide Sound, RoundsOk, Named, Now;
      CounterSet(Now(), rrRound, name, (Round(rrRound, name) + 1) % Rotations.WRAP);
      if name !in rrRound {
        rrRound := rrRound[name := 0];
      }
      rrRound := rrRound[name := (rrRound[name] + 1) % Rotations.WRAP];
      n := rrRound[name];
      assert rrRound == old(rrRound)[name := n];
    }

    /**
     The n-th of the groups that offer a short name, counting round and round. The counter is
     made a signed number first; None is the panic of a negative index.
     */
    method Rotate(model: string, first: Hit, n: Counter) returns (pick: Option<Hit>, ghost q: seq<Hit>)
      requires Sound(Now())
      ensures IsList(Now(), model, q)
      ensures pick == if q == [] then Some(first) else PickOf(q, n)
    {
      var hits := Collect(model);
      if |hits| == 0 {
        return Some(first), [];
      }
      var sorted := SortHits(hits);
      q := sorted;
      var i := Remainder(Signed(n), |sorted|);
      if i < 0 {
        return None, sorted;
      }
      pick := Some(sorted[i]);
    }

    /**
     Resolves a model name and, when several groups offer it, goes on to the next of them. The
     counter has moved on even when the index that comes of it makes the call panic.
     */
    method Pick(model: string) returns (hit: Option<Hit>, panics: bool, ghost q: seq<Hit>)
      requires Valid()
      modifies `rrRound
      ensures Valid() && IsList(Now(), model, q)
      ensures (forall g <- byGroup :: !Prefixes(Now(), g, model)) && |q| > 1 ==>
                var n := Rotations.Wrap(Round(old(rrRound), model) + 1);
                && hit == PickOf(q, n) && panics == hit.None? && rrRound == old(rrRound)[model := n]
      ensures (exists g <- byGroup :: Prefixes(Now(), g, model)) || |q| <= 1 ==>
                !panics && rrRound == old(rrRound) && exists poll :: Resolves(Now(), model, hit, poll)
    {
      hide Sound, RoundsOk, OrderOk, GroupsOk, NamesOk, Prefixes, Resolves, IsList, Named, Offers, PickOf;
      SoundParts(Now());
      panics := false;
      var poll;
      hit, poll := Resolve(model);
      if poll > 1 {
        ManyOffer(Now(), model, hit, poll);
        var n := NextRound(model);
        hit, q := Rotate(model, hit.value, n);
        ListCount(Now(), model, q);
        panics := hit.None?;
      } else {
        var hits := Collect(model);
        q := SortHits(hits);
        Gathered(Now(), model, q);
        ListCount(Now(), model, q);
        FewOffer(Now(), model, hit, poll, q);
      }
    }
  }

  /** The groups among some that have a member of this name. */
  ghost function Namers(ix: Index, ids: set<Id>, name: string): set<Id> {
    set g | g in ids && HasName(ix, g, name)
  }

  lemma MovedOver(seen: set<Id>, todo: set<Id>, g: Id, all: set<Id>)
    requires g in todo && seen + todo == all && seen !! todo
    ensures (seen + {g}) + (todo - {g}) == all && (seen + {g}) !! (todo - {g})
  {
  }

  lemma NoNamers(ix: Index, name: string)
    ensures Namers(ix, {}, name) == {}
  {
  }

  lemma OneMoreGroup(ix: Index, ids: set<Id>, g: Id, name: string)
    requires g !in ids
    ensures |Namers(ix, ids + {g}, name)| == |Namers(ix, ids, name)| + (if HasName(ix, g, name) then 1 else 0)
  {
    hide HasName;
    if HasName(ix, g, name) {
      assert Namers(ix, ids + {g}, name) == Namers(ix, ids, name) + {g};
    } else {
      assert Namers(ix, ids + {g}, name) == Namers(ix, ids, name);
    }
  }

  lemma NoneOrSome(ix: Index, ids: set<Id>, name: string)
    ensures |Namers(ix, ids, name)| > 0 <==> exists g <- ids :: HasName(ix, g, name)
  {
    hide HasName;
    if g :| g in ids && HasName(ix, g, name) {
      assert g in Namers(ix, ids, name);
    }
  }

  // ---- the index that a counter selects ----

  const HALF: nat := 0x8000_0000_0000_0000

  /** A 64-bit counter read as a signed number. */
  function Signed(n: Counter): int {
    if n < HALF then n else n - Rotations.WRAP
  }

  /** The remainder of a division that truncates towards zero. */
  function Remainder(a: int, size: nat): int
    requires size > 0
  {
    if a >= 0 then a % size else -((-a) % size)
  }

  /** What a counter selects: in the upper half only the first candidate, and only now and then. */
  function PickOf(q: seq<Hit>, n: Counter): Option<Hit>
    requires q != []
  {
    if n < HALF then Some(q[n % |q|])
    else if (Rotations.WRAP - n) % |q| == 0 then Some(q[0])
    else None
  }

  /**
   The same in the terms of the program: the counter as a signed number of 64 bits, and a division
   that truncates towards zero. There is a pick exactly when the remainder is not negative.
   */
  lemma PickIff(q: seq<Hit>, n: Counter)
    requires q != []
    ensures var signed: int := if n < 9223372036854775808 then n else n - 18446744073709551616;
            var rest: int := if signed >= 0 then signed % |q| else -((-signed) % |q|);
            PickOf(q, n) == if rest >= 0 then Some(q[rest]) else None
  {
  }

  /** From 2^63 on at least every other pick panics, when there is anything to choose from. */
  lemma UpperHalfPanics(q: seq<Hit>, n: Counter)
    requires |q| > 1 && HALF <= n < Rotations.WRAP - 1
    ensures PickOf(q, n).None? || PickOf(q, n + 1).None?
  {
    var a := Rotations.WRAP - n;
    if a % |q| == 0 {
      var k := a / |q|;
      assert a == |q| * k;
      Rotations.Distribute(|q|, k - 1);
      Rotations.DivUnique(a - 1, k - 1, |q| - 1, |q|);
    }
  }

  lemma Gathered(ix: Index, name: string, q: seq<Hit>)
    requires ByGroup(q) && forall h :: h in q <==> IsMember(ix, h, name)
    ensures IsList(ix, name, q)
  {
  }

  function Round(rounds: map<string, Counter>, name: string): Counter {
    if name in rounds then rounds[name] else 0
  }

  lemma CounterSet(ix: Index, rounds: map<string, Counter>, name: string, n: Counter)
    requires RoundsOk(ix, rounds) && Named(ix, name)
    ensures RoundsOk(ix, rounds[name := n])
  {
    hide Named;
  }

  lemma OrderGroups(ix: Index)
    requires OrderOk(ix)
    ensures ix.order.Keys <= ix.groups.Keys
    ensures forall h, name | IsMember(ix, h, name) :: h.group in ix.order
  {
  }

  /** The group that was found is the only one its prefix can mean. */
  lemma FullOnly(ix: Index, g: Id, model: string, hit: Option<Hit>, poll: nat)
    requires GroupsOk(ix) && Prefixes(ix, g, model) && FullName(ix, g, model, hit, poll)
    ensures Resolves(ix, model, hit, poll)
  {
    forall h | Prefixes(ix, h, model)
      ensures h == g
    {
      OnePrefix(ix, g, h, model);
    }
    hide GroupsOk, FullName;
    assert g in ix.groups && Prefixes(ix, g, model);
  }

  lemma FullPolls(ix: Index, g: Id, model: string, hit: Option<Hit>, poll: nat)
    requires Resolves(ix, model, hit, poll) && Prefixes(ix, g, model)
    ensures poll <= 1
  {
    assert FullName(ix, g, model, hit, poll);
  }

  /** Polling happens only for short names that several groups offer. */
  lemma ManyOffer(ix: Index, model: string, hit: Option<Hit>, poll: nat)
    requires Resolves(ix, model, hit, poll) && poll > 1
    ensures hit.Some? && Named(ix, model) && poll == |Offers(ix, model)|
    ensures forall g <- ix.groups :: !Prefixes(ix, g, model)
  {
    hide Offers, Prefixes;
    forall g <- ix.groups
      ensures !Prefixes(ix, g, model)
    {
      if Prefixes(ix, g, model) {
        FullPolls(ix, g, model, hit, poll);
      }
    }
    assert ShortName(ix, model, hit, poll);
    assert Offers(ix, model) != {};
  }

  lemma FewOffer(ix: Index, model: string, hit: Option<Hit>, poll: nat, q: seq<Hit>)
    requires Resolves(ix, model, hit, poll) && poll <= 1 && |q| == |Offers(ix, model)|
    ensures (exists g <- ix.groups :: Prefixes(ix, g, model)) || |q| <= 1
  {
    hide Offers, Prefixes;
    if forall g <- ix.groups :: !Prefixes(ix, g, model) {
      assert ShortName(ix, model, hit, poll);
    }
  }

  // ---- fairness between groups ----

  /** Over any run of picks on an unchanged index each offering group has its fair share. */
  lemma FairPicks(picks: seq<Hit>, q: seq<Hit>, start: nat)
    requires ByGroup(q) && q != [] && Rotations.InTurn(picks, q, start)
    ensures Rotations.Shared(picks, q, Rotations.Least(|picks|, |q|), Rotations.Most(|picks|, |q|))
  {
    assert Rotations.Distinct(q);
    hide ByGroup, Rotations.InTurn, Rotations.Distinct, Rotations.Shared, Rotations.Least, Rotations.Most;
    Rotations.FairShare(picks, q, start);
  }

  /** What the counter selects from first on. */
  ghost predicate AsCounted(picks: seq<Hit>, q: seq<Hit>, first: nat)
    requires q != []
  {
    forall j | 0 <= j < |picks| :: PickOf(q, Rotations.Wrap(first + j)) == Some(picks[j])
  }

  /**
   Picking the same short name again and again, up to a panic: fair as long as the counter stays
   in the lower half, where nothing panics, and beyond that what the counter says.
   */
  method PickMany(r: Registry, model: string, times: nat) returns (picks: seq<Hit>, panics: bool, ghost q: seq<Hit>)
    requires r.Valid()
    requires forall g <- r.byGroup :: !Prefixes(r.Now(), g, model)
    requires |Offers(r.Now(), model)| > 1
    modifies r`rrRound
    ensures r.Valid() && IsList(r.Now(), model, q) && q != [] && |picks| <= times
    ensures var first := Round(old(r.rrRound), model) + 1;
            && AsCounted(picks, q, first)
            && (if panics then |picks| < times && PickOf(q, Rotations.Wrap(first + |picks|)) == None
                else |picks| == times)
            && (first + times <= HALF ==>
                  !panics && Rotations.Shared(picks, q, Rotations.Least(times, |q|), Rotations.Most(times, |q|)))
  {
    hide OrderOk, GroupsOk, NamesOk, Sound, RoundsOk, Prefixes, Offers, Named, ByGroup, IsMember, Resolves, PickOf;
    hide Rotations.Wrap, Rotations.Turn, Rotations.Least, Rotations.Most, Rotations.Shared;
    SoundParts(r.Now());
    ghost var first := Round(r.rrRound, model) + 1;
    var hits := r.Collect(model);
    var sorted := SortHits(hits);
    q := sorted;
    Gathered(r.Now(), model, q);
    ListCount(r.Now(), model, q);
    Rotations.WrapSmall(first - 1);
    picks, panics := [], false;
    while |picks| < times && !panics
      invariant r.Valid() && |picks| <= times
      invariant IsList(r.Now(), model, q) && |q| > 1
      invariant !panics ==> Round(r.rrRound, model) == Rotations.Wrap(first - 1 + |picks|)
      invariant AsCounted(picks, q, first)
      invariant panics ==> |picks| < times && PickOf(q, Rotations.Wrap(first + |picks|)) == None
      decreases times - |picks|, !panics
    {
      hide AsCounted;
      var hit, failed, list := r.Pick(model);
      OneList(list, q);
      Rotations.NextWrap(first - 1 + |picks|);
      NextCounted(picks, q, first, hit);
      if failed {
        panics := true;
      } else {
        picks := picks + [hit.value];
      }
    }
    LowNeverPanics(q, first + |picks|);
    if first + times <= HALF {
      FairBelow(picks, q, first);
    }
  }

  lemma NextCounted(picks: seq<Hit>, q: seq<Hit>, first: nat, hit: Option<Hit>)
    requires q != [] && AsCounted(picks, q, first) && hit == PickOf(q, Rotations.Wrap(first + |picks|))
    ensures hit.Some? ==> AsCounted(picks + [hit.value], q, first)
  {
    hide PickOf, Rotations.Wrap;
  }

  lemma LowNeverPanics(q: seq<Hit>, n: nat)
    requires q != []
    ensures n < HALF ==> PickOf(q, Rotations.Wrap(n)) == Some(q[Rotations.Turn(n, |q|)])
  {
    if n < HALF {
      Rotations.WrapSmall(n);
    }
  }

  lemma CountedInTurn(picks: seq<Hit>, q: seq<Hit>, first: nat)
    requires q != [] && AsCounted(picks, q, first) && first + |picks| <= HALF
    ensures Rotations.InTurn(picks, q, first)
  {
    hide PickOf, Rotations.Turn, Rotations.Wrap;
    forall j | 0 <= j < |picks|
      ensures picks[j] == q[Rotations.Turn(first + j, |q|)]
    {
      LowNeverPanics(q, first + j);
    }
  }

  lemma FairBelow(picks: seq<Hit>, q: seq<Hit>, first: nat)
    requires ByGroup(q) && q != [] && AsCounted(picks, q, first) && first + |picks| <= HALF
    ensures Rotations.Shared(picks, q, Rotations.Least(|picks|, |q|), Rotations.Most(|picks|, |q|))
  {
    hide ByGroup, AsCounted, Rotations.InTurn, Rotations.Shared, Rotations.Least, Rotations.Most;
    CountedInTurn(picks, q, first);
    FairPicks(picks, q, first);
  }

  lemma ListAscends(ix: Index, g: Id)
    requires OrderOk(ix)
    ensures Ascending(ListOf(ix, g))
  {
    Short();
  }

  lemma StillNamed(ix: Index, ix': Index, rounds: map<string, Counter>)
    requires RoundsOk(ix, rounds)
    requires forall m <- ix.members :: m in ix'.members && ix'.members[m].name == ix.members[m].name
    ensures RoundsOk(ix', rounds)
  {
    forall name <- rounds
      ensures Named(ix', name)
    {
      assert Named(ix, name);
    }
  }

  lemma NamedSomewhere(ix: Index, name: string)
    requires OrderOk(ix)
    ensures Named(ix, name) <==> exists g <- ix.order :: HasName(ix, g, name)
  {
    if Named(ix, name) {
      var m :| m in ix.members && ix.members[m].name == name;
      assert m in ListOf(ix, ix.members[m].group);
      assert HasName(ix, ix.members[m].group, name);
    }
  }
}
