/**
 * Groups of consumers (coordination/consumer_group.py:132-193): joining, leaving and the broadcast
 * to a group, in the order the dictionary keeps its members.
 */
module Coordination {
  import opened Wrappers
  import opened ReorderBuffer
  import opened ConsumerGroups

  datatype Member = Member(name: string, consumer: Consumer)

  /** The members of a group in the order they joined. */
  type Group = seq<Member>

  type Groups = map<string, Group>

  function GroupOf(topic: string): string { "cg:" + topic }

  predicate AllSubscribed(ms: Group, topic: string)
  {
    forall i :: 0 <= i < |ms| ==> Subscribed(ms[i].consumer, topic)
  }

  function Names(ms: Group): seq<string>
  {
    seq(|ms|, i requires 0 <= i < |ms| => ms[i].name)
  }

  /** The position of a name, or the length of the list. */
  function PositionOf(names: seq<string>, name: string): (n: nat)
    ensures n <= |names|
    ensures n < |names| ==> names[n] == name
    ensures forall i :: 0 <= i < n ==> names[i] != name
  {
    if names == [] then 0
    else if names[0] == name then 0
    else 1 + PositionOf(names[1..], name)
  }

  function Without<T>(xs: seq<T>, i: nat): seq<T>
  {
    if i < |xs| then xs[..i] + xs[i + 1..] else xs
  }

  // ----- Broadcast -----

  /** The position of the first member whose handling ends in a KeyError, or the length of the group. */
  function Stop(ms: Group, topic: string, m: Msg): (n: nat)
    ensures n <= |ms|
    ensures n < |ms| ==> OnArrival(ms[n].consumer, topic, m).1
    ensures forall i :: 0 <= i < n ==> !OnArrival(ms[i].consumer, topic, m).1
  {
    if ms == [] then 0
    else if OnArrival(ms[0].consumer, topic, m).1 then 0
    else 1 + Stop(ms[1..], topic, m)
  }

  function Reached(x: Member, topic: string, m: Msg): Member
  {
    x.(consumer := OnArrival(x.consumer, topic, m).0)
  }

  /** A message reaches the members up to and including the first that fails. */
  function Sent(ms: Group, topic: string, m: Msg): (r: Group)
  {
    seq(|ms|, i requires 0 <= i < |ms| => if i <= Stop(ms, topic, m) then Reached(ms[i], topic, m) else ms[i])
  }

  /** The groups after a broadcast, and whether it ended in a KeyError. */
  function BroadcastTo(groups: Groups, groupId: string, topic: string, m: Msg): (Groups, bool)
  {
    if groupId in groups then
      (groups[groupId := Sent(groups[groupId], topic, m)], Stop(groups[groupId], topic, m) < |groups[groupId]|)
    else (groups, false)
  }

  // ----- Joining, leaving, subscribing -----

  const NEWCOMER: Consumer := Consumer(map[], map[], map[])

  function JoinTo(groups: Groups, g: string, name: string): Groups
  {
    var ms := Get(groups, g, []);
    if PositionOf(Names(ms), name) < |ms| then groups else groups[g := ms + [Member(name, NEWCOMER)]]
  }

  /** The group stays even when its last member leaves. */
  function LeaveFrom(groups: Groups, g: string, name: string): Groups
  {
    if g in groups && PositionOf(Names(groups[g]), name) < |groups[g]| then
      groups[g := Without(groups[g], PositionOf(Names(groups[g]), name))]
    else groups
  }

  /** One more callback of a member for a topic. */
  function SubscribeIn(groups: Groups, g: string, name: string, topic: string): Groups
  {
    if g in groups && PositionOf(Names(groups[g]), name) < |groups[g]| then
      var i := PositionOf(Names(groups[g]), name);
      groups[g := groups[g][i := groups[g][i].(consumer := Subscribe(groups[g][i].consumer, topic))]]
    else groups
  }

  // ----- The membership table -----

  /** Group names and their members' names. */
  type Membership = map<string, set<string>>

  function Enrolled(l: Membership, g: string, name: string): Membership
  {
    l[g := Get(l, g, {}) + {name}]
  }

  function Struck(l: Membership, g: string, name: string): Membership
  {
    if g !in l then l
    else if l[g] - {name} == {} then l - {g}
    else l[g := l[g] - {name}]
  }

  // ----- The coordinator object -----

  datatype Seat = Seat(name: string, consumer: ConsumerGroup)

  type Table = map<string, seq<Seat>>

  predicate In(t: Table, g: string, i: int)
  {
    g in t && 0 <= i < |t[g]|
  }

  /** Different members are different objects, and have different names within a group. */
  ghost predicate Distinct(t: Table)
  {
    && (forall g, i, h, j :: In(t, g, i) && In(t, h, j) && t[g][i].consumer == t[h][j].consumer ==> g == h && i == j)
    && (forall g, i, j :: In(t, g, i) && In(t, g, j) && t[g][i].name == t[g][j].name ==> i == j)
  }

  function NamesOf(seats: seq<Seat>): seq<string>
  {
    seq(|seats|, i requires 0 <= i < |seats| => seats[i].name)
  }

  function NameSet(t: Table, g: string): set<string>
  {
    if g in t then set i | 0 <= i < |t[g]| :: t[g][i].name else {}
  }

  /** The membership table lists just the members there are, and no empty group. */
  ghost predicate Agree(t: Table, l: Membership)
  {
    && (forall g :: Get(l, g, {}) == NameSet(t, g))
    && (forall g :: g in l ==> l[g] != {})
  }

  function Entered(t: Table, g: string, seat: Seat): Table
  {
    t[g := Get(t, g, []) + [seat]]
  }

  lemma EnteredDistinct(t: Table, g: string, seat: Seat)
    requires Distinct(t)
    requires forall h, j :: In(t, h, j) ==> t[h][j].consumer != seat.consumer
    requires seat.name !in NameSet(t, g)
    ensures Distinct(Entered(t, g, seat))
  {
    var t' := Entered(t, g, seat);
    forall h, j | In(t', h, j) ensures (In(t, h, j) && t'[h][j] == t[h][j]) || (h == g && t'[h][j] == seat) {
    }
  }

  lemma EnteredNames(t: Table, g: string, seat: Seat)
    ensures NameSet(Entered(t, g, seat), g) == NameSet(t, g) + {seat.name}
  {
    var t', before := Entered(t, g, seat), Get(t, g, []);
    forall x ensures x in NameSet(t', g) <==> x in NameSet(t, g) + {seat.name} {
      if i :| 0 <= i < |before| && before[i].name == x {
        assert t'[g][i].name == x;
      }
      if x == seat.name {
        assert t'[g][|before|].name == x;
      }
    }
  }

  lemma EnteredAgrees(t: Table, l: Membership, g: string, seat: Seat)
    requires Agree(t, l)
    ensures Agree(Entered(t, g, seat), Enrolled(l, g, seat.name))
  {
    var t', l' := Entered(t, g, seat), Enrolled(l, g, seat.name);
    EnteredNames(t, g, seat);
    forall h ensures Get(l', h, {}) == NameSet(t', h) {
      assert Get(l, h, {}) == NameSet(t, h);
    }
  }

  lemma StaysEnrolled(t: Table, l: Membership, g: string, name: string)
    requires Agree(t, l) && name in NameSet(t, g)
    ensures Enrolled(l, g, name) == l
  {
    assert Get(l, g, {}) == NameSet(t, g);
    assert Get(l, g, {}) + {name} == Get(l, g, {});
  }

  lemma LeftDistinct(t: Table, g: string, n: nat)
    requires Distinct(t) && In(t, g, n)
    ensures Distinct(t[g := Without(t[g], n)])
  {
    var t' := t[g := Without(t[g], n)];
    forall h, i | In(t', h, i)
      ensures var k := if h == g && i >= n then i + 1 else i; In(t, h, k) && t'[h][i] == t[h][k]
    {
    }
  }

  lemma LeftAgrees(t: Table, l: Membership, g: string, n: nat)
    requires Distinct(t) && Agree(t, l) && In(t, g, n)
    ensures Agree(t[g := Without(t[g], n)], Struck(l, g, t[g][n].name))
  {
    var name := t[g][n].name;
    var t', l' := t[g := Without(t[g], n)], Struck(l, g, name);
    assert Get(l, g, {}) == NameSet(t, g);
    forall x ensures x in NameSet(t', g) <==> x in NameSet(t, g) && x != name {
      LeftNames(t, g, n, x);
    }
    forall h ensures Get(l', h, {}) == NameSet(t', h) {
      assert Get(l, h, {}) == NameSet(t, h);
    }
  }

  lemma LeftNames(t: Table, g: string, n: nat, x: string)
    requires Distinct(t) && In(t, g, n)
    ensures x in NameSet(t[g := Without(t[g], n)], g) <==> x in NameSet(t, g) && x != t[g][n].name
  {
    var rest := Without(t[g], n);
    if i :| 0 <= i < |t[g]| && t[g][i].name == x && i != n {
      assert rest[if i < n then i else i - 1].name == x;
    }
    if i :| 0 <= i < |rest| && rest[i].name == x {
      assert In(t, g, if i < n then i else i + 1) && t[g][if i < n then i else i + 1].name == x;
    }
  }

  lemma NobodyLeft(t: Table, l: Membership, g: string, name: string)
    requires Agree(t, l) && name !in NameSet(t, g)
    ensures Struck(l, g, name) == l
  {
    assert Get(l, g, {}) == NameSet(t, g);
    assert Get(l, g, {}) - {name} == Get(l, g, {});
  }

  lemma NameSeated(t: Table, g: string, name: string)
    ensures var n := PositionOf(NamesOf(Get(t, g, [])), name);
            (name in NameSet(t, g) <==> n < |Get(t, g, [])|) && (n < |Get(t, g, [])| ==> In(t, g, n))
  {
    var seats := Get(t, g, []);
    var n := PositionOf(NamesOf(seats), name);
    if n < |seats| {
      assert seats[n].name == name;
    }
    if i :| 0 <= i < |seats| && seats[i].name == name {
      assert NamesOf(seats)[i] == name;
    }
  }

  ghost function Consumers(seats: seq<Seat>): set<ConsumerGroup>
  {
    set i | 0 <= i < |seats| :: seats[i].consumer
  }

  /** The values of one group's members. */
  ghost function SeatValues(seats: seq<Seat>): Group
    reads Consumers(seats)
  {
    seq(|seats|, i requires 0 <= i < |seats| reads Consumers(seats) =>
      Member(seats[i].name, seats[i].consumer.State()))
  }

  twostate lemma SeatsKept(seats: seq<Seat>)
    requires forall o :: o in Consumers(seats) ==> old(allocated(o)) && unchanged(o)
    ensures SeatValues(seats) == old(SeatValues(seats))
  {
    forall i | 0 <= i < |seats| ensures SeatValues(seats)[i] == old(SeatValues(seats))[i] {
      assert seats[i].consumer in Consumers(seats);
    }
  }

  lemma SeatValuesMore(seats: seq<Seat>, seat: Seat)
    ensures SeatValues(seats + [seat]) == SeatValues(seats) + [Member(seat.name, seat.consumer.State())]
    ensures Consumers(seats + [seat]) == Consumers(seats) + {seat.consumer}
  {
    var more := seats + [seat];
    assert more[|seats|] == seat && forall i :: 0 <= i < |seats| ==> more[i] == seats[i];
  }

  lemma StopsAt(ms: Group, topic: string, m: Msg, n: nat)
    requires n <= |ms| && (n < |ms| ==> OnArrival(ms[n].consumer, topic, m).1)
    requires forall i :: 0 <= i < n ==> !OnArrival(ms[i].consumer, topic, m).1
    ensures Stop(ms, topic, m) == n
  {
    hide OnArrival;
  }

  /** The listed members of a group are as many as its seats. */
  lemma CountsAgree(t: Table, l: Membership, g: string)
    requires Distinct(t) && Agree(t, l)
    ensures |Get(l, g, {})| == |Get(t, g, [])|
  {
    assert Get(l, g, {}) == NameSet(t, g);
    var names := NamesOf(Get(t, g, []));
    forall i, j | 0 <= i < j < |names| ensures names[i] != names[j] {
      assert In(t, g, i) && In(t, g, j);
    }
    DistinctSize(names);
    forall x ensures x in NameSet(t, g) <==> x in names {
      if i :| g in t && 0 <= i < |t[g]| && t[g][i].name == x {
        assert names[i] == x;
      }
    }
    assert NameSet(t, g) == set x | x in names;
  }

  class GroupCoordinator {
    var groups: Table
    var membership: Membership

    ghost predicate Valid()
      reads this
    {
      Distinct(groups) && Agree(groups, membership)
    }

    ghost function AllMembers(): set<ConsumerGroup>
      reads this
    {
      set g, i | g in groups && 0 <= i < |groups[g]| :: groups[g][i].consumer
    }

    ghost predicate Healthy()
      reads this, AllMembers()
    {
      forall o :: o in AllMembers() ==> o.Consistent()
    }

    ghost function State(): Groups
      reads this, AllMembers()
    {
      map g | g in groups :: SeatValues(groups[g])
    }

    constructor ()
      ensures Valid() && State() == map[] && membership == map[]
    {
      groups, membership := map[], map[];
    }

    method JoinGroup(groupId: string, consumerId: string) returns (c: ConsumerGroup)
      requires Valid()
      modifies this
      ensures Valid() && AllMembers() == old(AllMembers()) + {c}
      ensures c !in old(AllMembers()) ==> fresh(c) && c.Consistent()
      ensures State() == JoinTo(old(State()), groupId, consumerId)
      ensures membership == Enrolled(old(membership), groupId, consumerId)
    {
      hide Agree, Distinct, Enrolled, NameSet;
      ghost var before, listed := groups, membership;
      StateNames(groupId);
      Enroll(groupId, consumerId);
      SameGroups();
      assert groups == before;
      var names := NamesOf(Get(groups, groupId, []));
      var n := PositionOf(names, consumerId);
      NameSeated(groups, groupId, consumerId);
      if n < |names| {
        StaysEnrolled(before, listed, groupId, consumerId);
        c := groups[groupId][n].consumer;
        MemberAt(groupId, n);
      } else {
        c := SeatNewcomer(groupId, consumerId);
        ghost var seat := Seat(consumerId, c);
        forall h, j | In(before, h, j) ensures before[h][j].consumer != c {
          assert before[h][j].consumer in old(AllMembers());
        }
        EnteredDistinct(before, groupId, seat);
        EnteredAgrees(before, listed, groupId, seat);
        StateEntered(groupId, seat);
      }
    }

    method LeaveGroup(groupId: string, consumerId: string) returns (left: bool)
      requires Valid()
      modifies this
      ensures Valid() && AllMembers() <= old(AllMembers())
      ensures left <==> PositionOf(Names(Get(old(State()), groupId, [])), consumerId)
                        < |Get(old(State()), groupId, [])|
      ensures State() == LeaveFrom(old(State()), groupId, consumerId)
      ensures membership == Struck(old(membership), groupId, consumerId)
    {
      hide Agree, Distinct, NameSet;
      ghost var before, listed := groups, membership;
      StateNames(groupId);
      NameSeated(groups, groupId, consumerId);
      Strike(groupId, consumerId);
      SameGroups();
      assert groups == before;
      var names := NamesOf(Get(groups, groupId, []));
      var n := PositionOf(names, consumerId);
      left := n < |names|;
      if left {
        LeftDistinct(before, groupId, n);
        LeftAgrees(before, listed, groupId, n);
        groups := groups[groupId := groups[groupId][..n] + groups[groupId][n + 1..]];
        StateLeft(groupId, n);
      } else {
        NobodyLeft(before, listed, groupId, consumerId);
      }
    }

    /** The membership half of leaving. */
    method Strike(groupId: string, consumerId: string)
      modifies this`membership
      ensures membership == Struck(old(membership), groupId, consumerId)
    {
      if groupId in membership {
        membership := membership[groupId := membership[groupId] - {consumerId}];
        if membership[groupId] == {} {
          membership := membership - {groupId};
        }
      }
    }

    method MemberCount(groupId: string) returns (n: nat)
      requires Valid()
      ensures n == |Get(State(), groupId, [])|
    {
      StateNames(groupId);
      CountsAgree(groups, membership, groupId);
      n := |Get(membership, groupId, {})|;
    }

    /** A member, found by its name, gets one more callback. */
    method SubscribeMember(groupId: string, consumerId: string, topic: string)
      requires Valid() && Healthy()
      modifies AllMembers()
      ensures Healthy() && State() == SubscribeIn(old(State()), groupId, consumerId, topic)
    {
      StateNames(groupId);
      var names := NamesOf(Get(groups, groupId, []));
      var n := PositionOf(names, consumerId);
      if n < |names| {
        MemberAt(groupId, n);
        groups[groupId][n].consumer.AddCallback(topic);
        OneMoved(groupId, n);
      }
    }

    /** The message goes to one member after the other; a KeyError leaves the loop. */
    method Broadcast(groupId: string, topic: string, seqNo: int, payload: string) returns (keyError: bool)
      requires Valid() && Healthy()
      modifies AllMembers()
      ensures Healthy()
      ensures State() == BroadcastTo(old(State()), groupId, topic, Msg(seqNo, payload)).0
      ensures keyError == BroadcastTo(old(State()), groupId, topic, Msg(seqNo, payload)).1
    {
      keyError := false;
      if groupId in groups {
        SeatsDistinct(groupId);
        ConsumersAmong(groupId);
        keyError := ToAll(groups[groupId], topic, seqNo, payload);
        GroupMoved(groupId);
      }
    }

    /** The delivery loop over the members of one group. */
    static method ToAll(seats: seq<Seat>, topic: string, seqNo: int, payload: string) returns (keyError: bool)
      requires forall i, j :: 0 <= i < j < |seats| ==> seats[i].consumer != seats[j].consumer
      requires forall o :: o in Consumers(seats) ==> o.Consistent()
      modifies Consumers(seats)
      ensures forall o :: o in Consumers(seats) ==> o.Consistent()
      ensures SeatValues(seats) == Sent(old(SeatValues(seats)), topic, Msg(seqNo, payload))
      ensures keyError <==> Stop(old(SeatValues(seats)), topic, Msg(seqNo, payload)) < |seats|
    {
      hide OnArrival, Stop;
      ghost var m := Msg(seqNo, payload);
      ghost var was := SeatValues(seats);
      for i := 0 to |seats|
        invariant forall o :: o in Consumers(seats) ==> o.Consistent()
        invariant forall j :: 0 <= j < i ==>
                    !OnArrival(was[j].consumer, topic, m).1
                    && seats[j].consumer.State() == OnArrival(was[j].consumer, topic, m).0
        invariant forall j :: i <= j < |seats| ==> seats[j].consumer.State() == was[j].consumer
      {
        assert seats[i].consumer in Consumers(seats);
        keyError := seats[i].consumer.OnMessage(topic, seqNo, payload);
        if keyError {
          StopsAt(was, topic, m, i);
          return;
        }
      }
      keyError := false;
      StopsAt(was, topic, m, |seats|);
    }

    /** The membership half of joining. */
    method Enroll(groupId: string, consumerId: string)
      modifies this`membership
      ensures membership == Enrolled(old(membership), groupId, consumerId)
    {
      if groupId !in membership {
        membership := membership[groupId := {}];
      }
      membership := membership[groupId := membership[groupId] + {consumerId}];
    }

    method SeatNewcomer(groupId: string, consumerId: string) returns (c: ConsumerGroup)
      modifies this`groups
      ensures fresh(c) && c.Consistent() && c.State() == NEWCOMER
      ensures groups == Entered(old(groups), groupId, Seat(consumerId, c))
    {
      if groupId !in groups {
        groups := groups[groupId := []];
      }
      c := new ConsumerGroup(groupId, consumerId, map[]);
      groups := groups[groupId := groups[groupId] + [Seat(consumerId, c)]];
    }

    lemma StateNames(g: string)
      ensures Names(Get(State(), g, [])) == NamesOf(Get(groups, g, []))
      ensures |Get(State(), g, [])| == |Get(groups, g, [])|
    {
    }

    lemma MemberAt(g: string, n: nat)
      requires In(groups, g, n)
      ensures groups[g][n].consumer in AllMembers()
    {
    }

    lemma ConsumersAmong(g: string)
      requires g in groups
      ensures Consumers(groups[g]) <= AllMembers()
    {
    }

    /** The consumers' values do not depend on the membership table. */
    twostate lemma SameGroups()
      requires groups == old(groups)
      requires forall o :: o in AllMembers() ==> old(allocated(o)) && unchanged(o)
      ensures State() == old(State()) && AllMembers() == old(AllMembers())
    {
      forall g | g in groups ensures SeatValues(groups[g]) == old(SeatValues(groups[g])) {
        ConsumersAmong(g);
        SeatsKept(groups[g]);
      }
    }

    twostate lemma StateLeft(new g: string, new n: nat)
      requires g in old(groups) && n < |old(groups)[g]|
      requires groups == old(groups)[g := Without(old(groups)[g], n)]
      requires forall o :: o in old(AllMembers()) ==> unchanged(o)
      ensures State() == old(State())[g := Without(old(State())[g], n)] && AllMembers() <= old(AllMembers())
    {
      forall h | h in groups ensures Consumers(groups[h]) <= old(AllMembers()) {
        forall i | 0 <= i < |groups[h]| ensures groups[h][i].consumer in old(AllMembers()) {
          var k := if h == g && i >= n then i + 1 else i;
          assert old(groups)[h][k].consumer == groups[h][i].consumer;
        }
      }
      forall h | h in groups ensures SeatValues(groups[h]) == old(State())[g := Without(old(State())[g], n)][h] {
        SeatsKept(groups[h]);
      }
    }

    lemma SeatsDistinct(g: string)
      requires Valid() && g in groups
      ensures forall i, j :: 0 <= i < j < |groups[g]| ==> groups[g][i].consumer != groups[g][j].consumer
    {
      forall i, j | 0 <= i < j < |groups[g]| ensures groups[g][i].consumer != groups[g][j].consumer {
        assert In(groups, g, i) && In(groups, g, j);
      }
    }

    /** Only the consumers of one group have moved. */
    twostate lemma GroupMoved(g: string)
      requires old(Valid()) && groups == old(groups) && g in groups && old(Healthy())
      requires forall o :: o in AllMembers() ==> old(allocated(o))
      requires forall o :: o in AllMembers() && o !in Consumers(groups[g]) ==> unchanged(o)
      requires forall o :: o in Consumers(groups[g]) ==> o.Consistent()
      ensures Healthy() && State() == old(State())[g := SeatValues(groups[g])]
    {
      forall h | h in groups && h != g ensures SeatValues(groups[h]) == old(SeatValues(groups[h])) {
        forall o | o in Consumers(groups[h]) ensures unchanged(o) {
          var j :| 0 <= j < |groups[h]| && groups[h][j].consumer == o;
          assert o in AllMembers();
          if i :| 0 <= i < |groups[g]| && groups[g][i].consumer == o {
            assert In(groups, g, i) && In(groups, h, j);
          }
        }
        SeatsKept(groups[h]);
      }
    }

    /** Only one consumer has moved. */
    twostate lemma OneMoved(new g: string, new n: nat)
      requires old(Valid()) && groups == old(groups) && g in groups && n < |groups[g]| && old(Healthy())
      requires forall o :: o in AllMembers() ==> old(allocated(o))
      requires forall o :: o in AllMembers() && o != groups[g][n].consumer ==> unchanged(o)
      requires groups[g][n].consumer.Consistent()
      ensures Healthy()
      ensures State() == old(State())[g := old(State())[g][n := old(State())[g][n].(consumer := groups[g][n].consumer.State())]]
    {
      ConsumersAmong(g);
      MemberAt(g, n);
      assert groups[g][n].consumer in Consumers(groups[g]);
      forall o | o in Consumers(groups[g]) ensures o.Consistent() {
        assert o != groups[g][n].consumer ==> unchanged(o) && old(o.Consistent());
      }
      GroupMoved(g);
      forall i | 0 <= i < |groups[g]| && i != n
        ensures SeatValues(groups[g])[i] == old(SeatValues(groups[g]))[i]
      {
        MemberAt(g, i);
        assert In(groups, g, i) && In(groups, g, n);
      }
      var was := old(SeatValues(groups[g]));
      assert old(State())[g] == was;
      assert SeatValues(groups[g]) == was[n := was[n].(consumer := groups[g][n].consumer.State())];
    }

    twostate lemma StateEntered(g: string, new seat: Seat)
      requires groups == Entered(old(groups), g, seat) && seat.consumer.State() == NEWCOMER
      requires forall o :: o in old(AllMembers()) ==> unchanged(o)
      ensures State() == old(State())[g := Get(old(State()), g, []) + [Member(seat.name, NEWCOMER)]]
      ensures AllMembers() == old(AllMembers()) + {seat.consumer}
    {
      var was := Get(old(groups), g, []);
      SeatValuesMore(was, seat);
      forall h | h in old(groups) ensures SeatValues(old(groups)[h]) == old(SeatValues(groups[h])) {
        forall o | o in Consumers(old(groups)[h]) ensures o in old(AllMembers()) {
        }
        SeatsKept(old(groups)[h]);
      }
      MembersOf(seat, g);
    }

    twostate lemma MembersOf(new seat: Seat, g: string)
      requires groups == Entered(old(groups), g, seat)
      ensures AllMembers() == old(AllMembers()) + {seat.consumer}
    {
      var was := Get(old(groups), g, []);
      forall o ensures o in AllMembers() <==> o in old(AllMembers()) || o == seat.consumer {
        if o == seat.consumer {
          assert groups[g][|was|].consumer == o;
        }
        if o in old(AllMembers()) {
          var h, i :| h in old(groups) && 0 <= i < |old(groups)[h]| && old(groups)[h][i].consumer == o;
          assert groups[h][i].consumer == o;
        }
      }
    }
  }
}
