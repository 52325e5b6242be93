/**
 The group registry of the chat bot as a value: the members of every group the
 manager has created, which group each user is in, which groups are public, and
 the id counter. The operations of GroupManager are functions from one state to
 the next; the class in group_manager.dfy is proved to follow them. Prompts are
 not part of this state: the manager never reads or writes them (see ActiveGroup).
 */
module Registry {

  type UserId = int
  type ChatId = int
  type GroupId = nat

  datatype Option<+T> = None | Some(value: T)

  /** The members of one group: user id to chat id (ActiveGroup.users). */
  type Members = map<UserId, ChatId>

  /**
   A group is called a room here, to keep the value apart from the ActiveGroup objects
   and the object-valued userGroup map of the classes.
   rooms:    the members of every group created so far, by id (a group is never
             destroyed, only unlisted)
   userRoom: the group each user is in (GroupManager._user_group)
   public:   the ids of the published groups (the keys of GroupManager._public_groups)
   next:     the next id to issue (GroupManager._next_id_counter)
   */
  datatype State = State(rooms: map<GroupId, Members>, userRoom: map<UserId, GroupId>,
                         public: set<GroupId>, next: nat)

  function Init(): State
  {
    State(map[], map[], {}, 0)
  }

  // ---------------------------------------------------------------------------
  // Invariants

  /** What every reachable state satisfies, whatever the order of the calls. */
  ghost predicate Inv(s: State)
  {
    // every group id was issued by the counter
    && (forall i | i in s.rooms :: i < s.next)
    // a user mapped to a group is one of its members
    && (forall u | u in s.userRoom :: s.userRoom[u] in s.rooms && u in s.rooms[s.userRoom[u]])
    // a public group exists and is not empty
    && (forall i | i in s.public :: i in s.rooms && |s.rooms[i]| > 0)
  }

  /** Every member of a group is mapped to that group. */
  ghost predicate MembersMapped(s: State)
  {
    forall i, u | i in s.rooms && u in s.rooms[i] :: u in s.userRoom && s.userRoom[u] == i
  }

  /** Inv and MembersMapped: the groups partition the users that are in a group. */
  ghost predicate Partitioned(s: State)
  {
    Inv(s) && MembersMapped(s)
  }

  // ---------------------------------------------------------------------------
  // Operations

  /** _next_id: read the counter, then increment it. */
  function NextId(s: State): (State, GroupId)
  {
    (s.(next := s.next + 1), s.next)
  }

  /** new_group: the caller must not be in a group (new_group asserts this). */
  function NewGroup(s: State, u: UserId, c: ChatId): (State, GroupId)
    requires u !in s.userRoom
  {
    var (t, id) := NextId(s);
    (t.(rooms := t.rooms[id := map[u := c]], userRoom := t.userRoom[u := id]), id)
  }

  /** publish_group */
  function Publish(s: State, u: UserId): (State, bool)
  {
    if u !in s.userRoom then (s, false)
    else if s.userRoom[u] in s.public then (s, false)
    else (s.(public := s.public + {s.userRoom[u]}), true)
  }

  /** close_group */
  function Close(s: State, u: UserId): (State, bool)
  {
    if u !in s.userRoom then (s, false)
    else if s.userRoom[u] !in s.public then (s, false)
    else (s.(public := s.public - {s.userRoom[u]}), true)
  }

  /** remove_group: its assertion (no user maps to g) and the pop of g (which must be present). */
  function RemoveGroup(s: State, g: GroupId): State
    requires g in s.public
    requires forall u | u in s.userRoom :: s.userRoom[u] != g
  {
    s.(public := s.public - {g})
  }

  /** What user_leaves needs to run without an exception: remove_user finds the user
      among the members, and, when remove_group is reached, its assertion holds. */
  ghost predicate LeavePre(s: State, u: UserId)
  {
    u in s.userRoom ==>
      var g := s.userRoom[u];
      && g in s.rooms
      && u in s.rooms[g]
      && (|s.rooms[g] - {u}| == 0 && g in s.public ==>
            forall v | v in s.userRoom && v != u :: s.userRoom[v] != g)
  }

  /** The first half of user_leaves: remove_user on the user's group, then the pop of
      the user's entry in _user_group. */
  function Detach(s: State, u: UserId): State
    requires u in s.userRoom && s.userRoom[u] in s.rooms
  {
    var g := s.userRoom[u];
    s.(rooms := s.rooms[g := s.rooms[g] - {u}], userRoom := s.userRoom - {u})
  }

  /** user_leaves: None when the user has no group or the group was emptied and unlisted,
      otherwise the group left (possibly empty, then private). */
  function Leave(s: State, u: UserId): (State, Option<GroupId>)
    requires LeavePre(s, u)
  {
    if u !in s.userRoom then (s, None)
    else
      var g := s.userRoom[u];
      var t := Detach(s, u);
      if |t.rooms[g]| == 0 && g in t.public then (RemoveGroup(t, g), None)
      else (t, Some(g))
  }

  /** user_joins: only a public group can be joined; the user's previous group, if any,
      is not left (user_joins does not check it). */
  function Join(s: State, u: UserId, c: ChatId, idx: int): (State, bool)
    requires idx in s.public ==> idx in s.rooms
  {
    if idx !in s.public then (s, false)
    else
      (s.(rooms := s.rooms[idx := s.rooms[idx][u := c]], userRoom := s.userRoom[u := idx]), true)
  }

  // ---------------------------------------------------------------------------
  // Properties of single operations

  lemma InitInv()
    ensures Partitioned(Init())
    ensures Init().rooms == map[] && Init().public == {} && Init().next == 0
  {
  }

  /** new_group issues the counter value, which no existing group has, makes the caller
      the only member of the new group, and leaves the public groups unchanged. */
  lemma NewGroupFresh(s: State, u: UserId, c: ChatId)
    requires Inv(s) && u !in s.userRoom
    ensures var (t, id) := NewGroup(s, u, c);
      && id == s.next && t.next == s.next + 1
      && id !in s.rooms && (forall j | j in s.rooms :: j < id)
      && t.rooms.Keys == s.rooms.Keys + {id}
      && (forall j | j in s.rooms :: t.rooms[j] == s.rooms[j])
      && t.rooms[id] == map[u := c]
      && t.userRoom == s.userRoom[u := id]
      && t.public == s.public
  {
  }

  lemma NewGroupInv(s: State, u: UserId, c: ChatId)
    requires Inv(s) && u !in s.userRoom
    ensures Inv(NewGroup(s, u, c).0)
  {
  }

  lemma NewGroupPartitioned(s: State, u: UserId, c: ChatId)
    requires Partitioned(s) && u !in s.userRoom
    ensures Partitioned(NewGroup(s, u, c).0)
  {
  }

  /** publish_group succeeds exactly when the caller's group is private, and then lists
      exactly that group; otherwise nothing changes. */
  lemma PublishSpec(s: State, u: UserId)
    ensures var (t, ok) := Publish(s, u);
      && (ok <==> u in s.userRoom && s.userRoom[u] !in s.public)
      && (!ok ==> t == s)
      && (ok ==> t.public == s.public + {s.userRoom[u]} && t.rooms == s.rooms && t.userRoom == s.userRoom
                 && t.next == s.next)
  {
  }

  lemma PublishInv(s: State, u: UserId)
    requires Inv(s)
    ensures Inv(Publish(s, u).0)
    ensures Partitioned(s) ==> Partitioned(Publish(s, u).0)
  {
  }

  /** close_group is the dual of publish_group. */
  lemma CloseSpec(s: State, u: UserId)
    ensures var (t, ok) := Close(s, u);
      && (ok <==> u in s.userRoom && s.userRoom[u] in s.public)
      && (!ok ==> t == s)
      && (ok ==> t.public == s.public - {s.userRoom[u]} && t.rooms == s.rooms && t.userRoom == s.userRoom
                 && t.next == s.next)
  {
  }

  lemma CloseInv(s: State, u: UserId)
    requires Inv(s)
    ensures Inv(Close(s, u).0)
    ensures Partitioned(s) ==> Partitioned(Close(s, u).0)
  {
  }

  /** A successful publish followed by a close restores the state. */
  lemma PublishThenClose(s: State, u: UserId)
    requires Publish(s, u).1
    ensures Close(Publish(s, u).0, u) == (s, true)
  {
    var t := Publish(s, u).0;
    assert t.public - {s.userRoom[u]} == s.public;
  }

  /** A successful close followed by a publish restores the state. */
  lemma CloseThenPublish(s: State, u: UserId)
    requires Close(s, u).1
    ensures Publish(Close(s, u).0, u) == (s, true)
  {
    var t := Close(s, u).0;
    assert t.public + {s.userRoom[u]} == s.public;
  }

  /** user_joins on an id that is not public changes nothing; otherwise it adds the user to
      that group and maps the user to it, leaving the public groups and the counter alone. */
  lemma JoinSpec(s: State, u: UserId, c: ChatId, idx: int)
    requires idx in s.public ==> idx in s.rooms
    ensures var (t, ok) := Join(s, u, c, idx);
      && (ok <==> idx in s.public)
      && (idx < 0 ==> !ok)
      && (!ok ==> t == s)
      && (ok ==> t.rooms.Keys == s.rooms.Keys
                 && t.rooms[idx] == s.rooms[idx][u := c]
                 && (forall j | j in s.rooms && j != idx :: t.rooms[j] == s.rooms[j])
                 && t.userRoom == s.userRoom[u := idx])
      && t.public == s.public && t.next == s.next
  {
  }

  /** Inv holds after user_joins even when the user was already in another group. */
  lemma JoinInv(s: State, u: UserId, c: ChatId, idx: int)
    requires Inv(s)
    ensures Inv(Join(s, u, c, idx).0)
  {
  }

  /** Joining keeps every member mapped to its group when the user has no group yet
      (the only way the bot calls it: on_join leaves first). */
  lemma JoinPartitioned(s: State, u: UserId, c: ChatId, idx: int)
    requires Partitioned(s)
    requires u !in s.userRoom
    ensures Partitioned(Join(s, u, c, idx).0)
  {
  }

  /** Joining while in another group repoints the user but leaves it a member of the old
      group, so that group keeps sending it the other members' messages. */
  lemma JoinOverwrite(s: State, u: UserId, c: ChatId, idx: int)
    requires Partitioned(s)
    requires idx in s.public && u in s.userRoom && s.userRoom[u] != idx
    ensures var t := Join(s, u, c, idx).0;
      && u in t.rooms[s.userRoom[u]]
      && t.userRoom[u] == idx
      && !Partitioned(t)
  {
    var t := Join(s, u, c, idx).0;
    var old_g := s.userRoom[u];
    assert old_g in t.rooms && u in t.rooms[old_g] && t.userRoom[u] != old_g;
  }

  /** From any state satisfying Inv, user_leaves raises nothing: remove_user finds the user
      and the assertion of remove_group cannot fire. */
  lemma LeaveAllowed(s: State, u: UserId)
    requires Inv(s)
    ensures LeavePre(s, u)
  {
    if u in s.userRoom {
      var g := s.userRoom[u];
      if |s.rooms[g] - {u}| == 0 && g in s.public {
        var rest := s.rooms[g] - {u};
        assert rest == map[];
        forall v | v in s.userRoom && v != u
          ensures s.userRoom[v] != g
        {
          assert v in s.rooms[s.userRoom[v]];
          assert v !in rest;
        }
      }
    }
  }

  /** A user alone in a public group who leaves and then joins that group again fails:
      the group was unlisted when it emptied, so the user ends with no group at all, and
      a lookup of the user's group raises. */
  lemma RejoinEmptied(s: State, u: UserId, c: ChatId, g: GroupId)
    requires Inv(s)
    requires u in s.userRoom && s.userRoom[u] == g && g in s.public && s.rooms[g].Keys == {u}
    ensures LeavePre(s, u)
    ensures var t := Leave(s, u).0;
      && !Join(t, u, c, g).1
      && u !in Join(t, u, c, g).0.userRoom
  {
    LeaveInv(s, u);
    assert s.rooms[g] - {u} == map[];
  }

  /** user_leaves: nothing changes for a user without a group; otherwise the user is no
      longer mapped and no longer a member, and the group is unlisted exactly when it is
      now empty and was public, in which case None is returned. */
  lemma LeaveSpec(s: State, u: UserId)
    requires LeavePre(s, u)
    ensures var (t, r) := Leave(s, u);
      && (u !in s.userRoom ==> t == s && r == None)
      && (u in s.userRoom ==>
            var g := s.userRoom[u];
            && t.userRoom == s.userRoom - {u}
            && t.rooms == s.rooms[g := s.rooms[g] - {u}]
            && t.next == s.next
            && var emptied := |t.rooms[g]| == 0 && g in s.public;
               && t.public == (if emptied then s.public - {g} else s.public)
               && r == (if emptied then None else Some(g)))
  {
  }

  /** user_leaves keeps Inv; in particular a group emptied by its last member leaving is
      no longer public. */
  lemma LeaveInv(s: State, u: UserId)
    requires Inv(s)
    ensures LeavePre(s, u)
    ensures Inv(Leave(s, u).0)
  {
    LeaveAllowed(s, u);
    if u in s.userRoom {
      LeaveSpec(s, u);
      var t := Leave(s, u).0;
      forall v | v in t.userRoom
        ensures t.userRoom[v] in t.rooms && v in t.rooms[t.userRoom[v]]
      {
        assert v in s.userRoom && v != u && t.userRoom[v] == s.userRoom[v];
      }
      forall i | i in t.public
        ensures i in t.rooms && |t.rooms[i]| > 0
      {
        assert i in s.public;
      }
    }
  }

  lemma LeavePartitioned(s: State, u: UserId)
    requires Partitioned(s)
    ensures LeavePre(s, u)
    ensures Partitioned(Leave(s, u).0)
  {
    LeaveInv(s, u);
    if u in s.userRoom {
      LeaveSpec(s, u);
      RemoveMemberMapped(s, Leave(s, u).0, u, s.userRoom[u]);
    }
  }

  lemma RemoveMemberMapped(s: State, t: State, u: UserId, g: GroupId)
    requires MembersMapped(s) && g in s.rooms && u in s.userRoom && s.userRoom[u] == g
    requires t.userRoom == s.userRoom - {u}
    requires t.rooms == s.rooms[g := s.rooms[g] - {u}]
    ensures MembersMapped(t)
  {
    forall i, v | i in t.rooms && v in t.rooms[i]
      ensures v in t.userRoom && t.userRoom[v] == i
    {
      assert v in s.rooms[i] && v != u;
    }
  }

  // ---------------------------------------------------------------------------
  // Sequences of requests

  /** A request that reaches the registry, as the bot's handlers issue it. */
  datatype Event =
    | Created(u: UserId, c: ChatId)             // /new_group, /start
    | Published(u: UserId)
    | Closed(u: UserId)
    | Joined(u: UserId, c: ChatId, idx: int)
    | Left(u: UserId)

  /** One request. A user already in a group cannot create one: the handlers check
      has_group first and new_group asserts it, so the state is left unchanged. */
  function Apply(s: State, e: Event): State
    requires Inv(s)
  {
    match e
    case Created(u, c) => if u in s.userRoom then s else NewGroup(s, u, c).0
    case Published(u) => Publish(s, u).0
    case Closed(u) => Close(s, u).0
    case Joined(u, c, idx) => Join(s, u, c, idx).0
    case Left(u) => LeaveAllowed(s, u); Leave(s, u).0
  }

  lemma ApplyInv(s: State, e: Event)
    requires Inv(s)
    ensures Inv(Apply(s, e))
  {
    match e
    case Created(u, c) =>
      if u !in s.userRoom { NewGroupInv(s, u, c); }
    case Published(u) => PublishInv(s, u);
    case Closed(u) => CloseInv(s, u);
    case Joined(u, c, idx) => JoinInv(s, u, c, idx);
    case Left(u) => LeaveInv(s, u);
  }

  /** Joins come only from users without a group (on_join makes the user leave first). */
  ghost predicate JoinsFromNoGroup(s: State, e: Event)
  {
    e.Joined? ==> e.u !in s.userRoom
  }

  lemma ApplyPartitioned(s: State, e: Event)
    requires Partitioned(s) && JoinsFromNoGroup(s, e)
    ensures Partitioned(Apply(s, e))
  {
    match e
    case Created(u, c) =>
      if u !in s.userRoom { NewGroupPartitioned(s, u, c); }
    case Published(u) => PublishInv(s, u);
    case Closed(u) => CloseInv(s, u);
    case Joined(u, c, idx) => JoinPartitioned(s, u, c, idx);
    case Left(u) => LeavePartitioned(s, u);
  }

  /** A request never forgets a group and never lowers the counter. */
  lemma ApplyGrows(s: State, e: Event)
    requires Inv(s)
    ensures s.next <= Apply(s, e).next
    ensures s.rooms.Keys <= Apply(s, e).rooms.Keys
  {
    match e
    case Created(u, c) =>
      if u !in s.userRoom { NewGroupFresh(s, u, c); }
    case Published(u) =>
    case Closed(u) =>
    case Joined(u, c, idx) =>
    case Left(u) => LeaveAllowed(s, u); LeaveSpec(s, u);
  }

  /** Any sequence of requests from a state satisfying Inv ends in a state satisfying Inv. */
  function Run(s: State, es: seq<Event>): (t: State)
    requires Inv(s)
    ensures Inv(t)
    decreases |es|
  {
    if es == [] then s
    else
      ApplyInv(s, es[0]);
      Run(Apply(s, es[0]), es[1..])
  }

  /** Every join of the run comes from a user without a group at that point. */
  ghost predicate Disciplined(s: State, es: seq<Event>)
    requires Inv(s)
    decreases |es|
  {
    es != [] ==>
      && JoinsFromNoGroup(s, es[0])
      && (ApplyInv(s, es[0]); Disciplined(Apply(s, es[0]), es[1..]))
  }

  /** With joins only from users without a group, every run keeps the groups a
      partition: each member of a group is mapped to it and to nothing else. */
  lemma {:induction false} RunPartitioned(s: State, es: seq<Event>)
    requires Partitioned(s) && Disciplined(s, es)
    ensures Partitioned(Run(s, es))
    decreases |es|
  {
    if es != [] {
      ApplyInv(s, es[0]);
      ApplyPartitioned(s, es[0]);
      RunPartitioned(Apply(s, es[0]), es[1..]);
    }
  }

  /** Over any run, ids are never reused: every group that existed before still exists and
      the counter only grows, so the next id issued is above every id issued earlier. */
  lemma {:induction false} RunGrows(s: State, es: seq<Event>)
    requires Inv(s)
    ensures var t := Run(s, es);
      && s.next <= t.next
      && s.rooms.Keys <= t.rooms.Keys
      && (forall i | i in s.rooms :: i < t.next)
    decreases |es|
  {
    if es != [] {
      ApplyInv(s, es[0]);
      ApplyGrows(s, es[0]);
      RunGrows(Apply(s, es[0]), es[1..]);
    }
  }

  /** A run from the initial state: user 1 creates group 0 and publishes it, user 2 joins
      it, user 1 leaves (the group stays public), user 2 leaves (the group is unlisted).
      Joining an id that was never created fails, and a second creation by a user who is
      in a group changes nothing. */
  lemma Scenario()
    ensures var (s1, id) := NewGroup(Init(), 1, 10);
      && id == 0
      && Apply(s1, Created(1, 11)) == s1
      && var (s2, p) := Publish(s1, 1);
      && p && s2.public == {0}
      && var (s3, j) := Join(s2, 2, 20, 0);
      && j && s3.userRoom[2] == 0
      && LeavePre(s3, 1)
      && var (s4, r4) := Leave(s3, 1);
      && r4 == Some(0) && s4.public == {0} && s4.rooms[0] == map[2 := 20]
      && LeavePre(s4, 2)
      && var (s5, r5) := Leave(s4, 2);
      && r5 == None && s5.public == {} && s5.userRoom == map[]
    ensures !Join(Init(), 3, 30, 42).1 && !Join(Init(), 3, 30, -3).1
  {
    var (s1, id) := NewGroup(Init(), 1, 10);
    assert Inv(s1);
    var (s2, p) := Publish(s1, 1);
    var (s3, j) := Join(s2, 2, 20, 0);
    assert s3.rooms[0] == map[1 := 10, 2 := 20];
    assert s3.rooms[0] - {1} == map[2 := 20];
    var (s4, r4) := Leave(s3, 1);
    assert s4.userRoom == map[2 := 0];
    assert s4.rooms[0] - {2} == map[];
  }
}
