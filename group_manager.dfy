/**
 GroupManager: the registry object. Its two dictionaries share the ActiveGroup
 objects: _user_group maps a user to the group it is in, _public_groups maps the id
 of a published group to that group. Every method that changes the registry is proved
 to change the abstract state `model` exactly as the matching function of module
 Registry does. PublishGroup, CloseGroup, UserJoins, UserLeaves and NewGroup keep
 Valid(), and with it Registry.Inv. NextId only steps the counter. DetachUser and
 RemoveGroup keep only Coupled, since they are the two halves of user_leaves.
 */
module Manager {
  import opened Registry
  import opened Group

  /** How the two dictionaries and the table of created groups stand for the state s:
      each created group is filed under its own id, the users and the public ids are
      those of s, and both dictionaries point into the table. Ids are constants, so
      this reads no fields. */
  ghost predicate Linked(rooms: map<GroupId, ActiveGroup>, userGroup: map<UserId, ActiveGroup>,
                         publicGroups: map<GroupId, ActiveGroup>, s: State)
  {
    && rooms.Keys == s.rooms.Keys
    && (forall i | i in rooms :: rooms[i].id == i)
    && userGroup.Keys == s.userRoom.Keys
    && (forall u | u in userGroup :: s.userRoom[u] in rooms && userGroup[u] == rooms[s.userRoom[u]])
    && publicGroups.Keys == s.public
    && (forall i | i in publicGroups :: i in rooms && publicGroups[i] == rooms[i])
  }

  /** The groups of the table are exactly repr, each filed under its own id. */
  ghost predicate Filed(rooms: map<GroupId, ActiveGroup>, repr: set<ActiveGroup>)
  {
    && (forall i | i in rooms :: rooms[i] in repr)
    && (forall g | g in repr :: g.id in rooms && rooms[g.id] == g)
  }

  lemma PublishLinked(rooms: map<GroupId, ActiveGroup>, ug: map<UserId, ActiveGroup>,
                      pg: map<GroupId, ActiveGroup>, s: State, u: UserId)
    requires Linked(rooms, ug, pg, s)
    requires u in ug && ug[u].id !in pg
    ensures Publish(s, u).1
    ensures Linked(rooms, ug, pg[ug[u].id := ug[u]], Publish(s, u).0)
  {
  }

  lemma CloseLinked(rooms: map<GroupId, ActiveGroup>, ug: map<UserId, ActiveGroup>,
                    pg: map<GroupId, ActiveGroup>, s: State, u: UserId)
    requires Linked(rooms, ug, pg, s)
    requires u in ug && ug[u].id in pg
    ensures Close(s, u).1
    ensures Linked(rooms, ug, pg - {ug[u].id}, Close(s, u).0)
  {
  }

  lemma JoinLinked(rooms: map<GroupId, ActiveGroup>, ug: map<UserId, ActiveGroup>,
                   pg: map<GroupId, ActiveGroup>, s: State, u: UserId, c: ChatId, idx: int)
    requires Linked(rooms, ug, pg, s)
    requires idx in pg
    ensures Join(s, u, c, idx).1
    ensures Linked(rooms, ug[u := pg[idx]], pg, Join(s, u, c, idx).0)
  {
  }

  /** The first half of user_leaves on the dictionaries: the user's entry goes. */
  lemma DetachLinked(rooms: map<GroupId, ActiveGroup>, ug: map<UserId, ActiveGroup>,
                     pg: map<GroupId, ActiveGroup>, s: State, u: UserId)
    requires Linked(rooms, ug, pg, s) && u in ug
    ensures ug[u].id == s.userRoom[u] && s.userRoom[u] in s.rooms
    ensures Linked(rooms, ug - {u}, pg, Detach(s, u))
  {
  }

  /** When the last member has left a public group, no remaining user maps to it. */
  lemma DetachedEmpty(rooms: map<GroupId, ActiveGroup>, ug: map<UserId, ActiveGroup>,
                      pg: map<GroupId, ActiveGroup>, s: State, u: UserId)
    requires Linked(rooms, ug, pg, s) && Inv(s) && u in ug
    requires |Detach(s, u).rooms[s.userRoom[u]]| == 0
    ensures forall v | v in ug - {u} :: (ug - {u})[v].id != s.userRoom[u]
  {
    LeaveAllowed(s, u);
    var g := s.userRoom[u];
    forall v | v in ug - {u}
      ensures (ug - {u})[v].id != g
    {
      assert v in s.userRoom && v != u;
    }
  }

  /** remove_group on the dictionaries: the public entry goes. */
  lemma RemoveGroupLinked(rooms: map<GroupId, ActiveGroup>, ug: map<UserId, ActiveGroup>,
                          pg: map<GroupId, ActiveGroup>, s: State, g: GroupId)
    requires Linked(rooms, ug, pg, s) && g in pg
    requires forall v | v in ug :: ug[v].id != g
    ensures g in s.public && forall v | v in s.userRoom :: s.userRoom[v] != g
    ensures Linked(rooms, ug, pg - {g}, RemoveGroup(s, g))
  {
  }

  lemma NewGroupLinked(rooms: map<GroupId, ActiveGroup>, ug: map<UserId, ActiveGroup>,
                       pg: map<GroupId, ActiveGroup>, repr: set<ActiveGroup>, s: State,
                       u: UserId, c: ChatId, g: ActiveGroup)
    requires Linked(rooms, ug, pg, s) && Filed(rooms, repr) && Inv(s) && u !in ug
    requires g.id == s.next
    ensures Linked(rooms[g.id := g], ug[u := g], pg, NewGroup(s, u, c).0)
    ensures Filed(rooms[g.id := g], repr + {g})
  {
  }

  class GroupManager {
    var nextIdCounter: nat
    var userGroup: map<UserId, ActiveGroup>
    var publicGroups: map<GroupId, ActiveGroup>

    /** Every group this manager has created, by id. Python keeps no such table; it
        names the objects the two dictionaries may point to. */
    ghost var rooms: map<GroupId, ActiveGroup>
    /** The same groups as a set: the objects the methods may change. */
    ghost var Repr: set<ActiveGroup>
    /** The registry as a value: group ids stand for the group objects. */
    ghost var model: State

    /** Repr holds exactly the groups of the table, the dictionaries and the table stand
        for the model, each group holds the members the model gives it, and the counter
        is the model's. */
    ghost predicate Coupled()
      reads this, Repr
    {
      && Filed(rooms, Repr)
      && Linked(rooms, userGroup, publicGroups, model)
      && (forall g | g in Repr :: g.users == model.rooms[g.id])
      && nextIdCounter == model.next
    }

    /** The object invariant: Coupled, and the model satisfies Inv. */
    ghost predicate Valid()
      reads this, Repr
    {
      Coupled() && Inv(model)
    }

    constructor ()
      ensures Valid() && rooms == map[] && Repr == {}
      ensures model == Init()
    {
      nextIdCounter := 0;
      userGroup := map[];
      publicGroups := map[];
      rooms := map[];
      Repr := {};
      model := Init();
    }

    /** _next_id: the counter before the call; the counter grows by one. */
    method NextId() returns (res: GroupId)
      modifies this`nextIdCounter
      ensures res == old(nextIdCounter) && nextIdCounter == old(nextIdCounter) + 1
    {
      res := nextIdCounter;
      nextIdCounter := nextIdCounter + 1;
    }

    /** publish_group */
    method PublishGroup(u: UserId) returns (ok: bool)
      requires Valid()
      modifies this`publicGroups, this`model
      ensures Valid() && rooms == old(rooms)
      ensures (model, ok) == Registry.Publish(old(model), u)
    {
      PublishInv(model, u);
      if u !in userGroup {
        return false;
      }
      var group := userGroup[u];
      if group.id in publicGroups {
        return false;
      }
      PublishLinked(rooms, userGroup, publicGroups, model, u);
      publicGroups := publicGroups[group.id := group];
      model := Registry.Publish(model, u).0;
      ok := true;
    }

    /** close_group */
    method CloseGroup(u: UserId) returns (ok: bool)
      requires Valid()
      modifies this`publicGroups, this`model
      ensures Valid() && rooms == old(rooms)
      ensures (model, ok) == Registry.Close(old(model), u)
    {
      CloseInv(model, u);
      if u !in userGroup {
        return false;
      }
      var group := userGroup[u];
      if group.id !in publicGroups {
        return false;
      }
      CloseLinked(rooms, userGroup, publicGroups, model, u);
      publicGroups := publicGroups - {group.id};
      model := Registry.Close(model, u).0;
      ok := true;
    }

    /** remove_group: asserts that no user is in the group, then pops it (which raises
        KeyError unless it is public). Only user_leaves calls it, between its two halves,
        so it keeps Coupled rather than Valid. */
    method RemoveGroup(gid: GroupId)
      requires Coupled() && gid in publicGroups
      requires forall u | u in userGroup :: userGroup[u].id != gid
      modifies this`publicGroups, this`model
      ensures Coupled() && rooms == old(rooms) && Repr == old(Repr)
      ensures gid in old(model.public) && model == Registry.RemoveGroup(old(model), gid)
      ensures publicGroups == old(publicGroups) - {gid}
    {
      var rest := userGroup.Keys;
      while rest != {}
        invariant rest <= userGroup.Keys
        invariant forall v | v in userGroup.Keys - rest :: userGroup[v].id != gid
        decreases rest
      {
        // by extensionality, a set other than {} has an element
        assert (forall v :: v !in rest) ==> rest == {};
        var w :| w in rest;
        assert userGroup[w].id != gid;
        rest := rest - {w};
      }
      RemoveGroupLinked(rooms, userGroup, publicGroups, model, gid);
      publicGroups := publicGroups - {gid};
      model := Registry.RemoveGroup(model, gid);
    }

    /** The first half of user_leaves: removes the user from its group's members, then
        drops the user's entry from the user map. Only the model's invariant may be broken after it
        (a public group may now be empty). */
    method DetachUser(u: UserId) returns (group: ActiveGroup)
      requires Valid() && u in userGroup
      modifies this`userGroup, this`model, {userGroup[u]}`users
      ensures Coupled() && rooms == old(rooms) && Repr == old(Repr)
      ensures group == old(userGroup[u]) && group.id == old(model.userRoom[u])
      ensures userGroup == old(userGroup) - {u} && model == Detach(old(model), u)
    {
      group := userGroup[u];
      DetachLinked(rooms, userGroup, publicGroups, model, u);
      userGroup, model := userGroup - {u}, Detach(model, u);
      group.RemoveUser(u);
      forall g | g in Repr
        ensures g.users == model.rooms[g.id]
      {
        if g != group {
          assert g.users == old(g.users);
        }
      }
    }

    /** user_leaves: the group left is returned unless it was emptied and unlisted. */
    method UserLeaves(u: UserId) returns (r: Option<ActiveGroup>)
      requires Valid()
      modifies this, Repr`users
      ensures LeavePre(old(model), u)
      ensures Valid() && rooms == old(rooms) && Repr == old(Repr)
      ensures var (t, res) := Registry.Leave(old(model), u);
        && model == t
        && (r.Some? <==> res.Some?)
        && (r.Some? ==> r.value.id == res.value && rooms[r.value.id] == r.value)
    {
      LeaveInv(model, u);
      if u !in userGroup {
        return None;
      }
      var group := DetachUser(u);
      if group.IsEmpty() && group.id in publicGroups {
        DetachedEmpty(rooms, old(userGroup), publicGroups, old(model), u);
        RemoveGroup(group.id);
        r := None;
      } else {
        r := Some(group);
      }
    }

    /** user_joins: the user's previous group, if any, is not left. */
    method UserJoins(u: UserId, c: ChatId, idx: int) returns (ok: bool)
      requires Valid()
      modifies this, Repr`users
      ensures Valid() && rooms == old(rooms) && Repr == old(Repr)
      ensures (model, ok) == Registry.Join(old(model), u, c, idx)
    {
      JoinInv(model, u, c, idx);
      if idx !in publicGroups {
        return false;
      }
      var group := publicGroups[idx];
      JoinLinked(rooms, userGroup, publicGroups, model, u, c, idx);
      userGroup := userGroup[u := group];
      model := Registry.Join(model, u, c, idx).0;
      group.AddUser(u, c);
      ok := true;
      assert Filed(rooms, Repr) && Linked(rooms, userGroup, publicGroups, model);
      forall g | g in Repr
        ensures g.users == model.rooms[g.id]
      {
        if g != group {
          assert g.users == old(g.users);
        }
      }
    }

    /** public_group_exists: only public groups can be found by id, and a public group
        is never empty. */
    function PublicGroupExists(gid: int): (r: bool)
      reads this, Repr
      ensures Valid() ==> (r <==> gid in model.public)
      ensures Valid() && r ==> publicGroups[gid].id == gid && publicGroups[gid].users != map[]
    {
      gid in publicGroups
    }

    /** get_group: a user without a group makes the dictionary lookup raise KeyError. */
    function GetGroup(u: UserId): (r: ActiveGroup)
      requires u in userGroup
      reads this, Repr
      ensures Valid() ==> r.id == model.userRoom[u] && r in Repr && rooms[r.id] == r
      ensures Valid() ==> u in r.users
    {
      userGroup[u]
    }

    /** new_group: the caller must not be in a group (new_group asserts it). The group
        returned is new, private, has an empty prompt and the caller as its only member. */
    method NewGroup(u: UserId, c: ChatId) returns (g: ActiveGroup)
      requires Valid() && u !in userGroup
      modifies this
      ensures Valid() && fresh(g) && rooms == old(rooms)[g.id := g] && Repr == old(Repr) + {g}
      ensures (model, g.id) == Registry.NewGroup(old(model), u, c)
      ensures userGroup == old(userGroup)[u := g] && g.prompt == ""
    {
      NewGroupInv(model, u, c);
      var idx := NextId();
      var group := new ActiveGroup(idx);
      NewGroupLinked(rooms, userGroup, publicGroups, Repr, model, u, c, group);
      userGroup := userGroup[u := group];
      rooms, Repr, model := rooms[idx := group], Repr + {group}, Registry.NewGroup(model, u, c).0;
      group.AddUser(u, c);
      g := userGroup[u];
      forall h | h in Repr
        ensures h.users == model.rooms[h.id]
      {
        if h != group {
          assert h in old(Repr) && h.users == old(h.users);
        }
      }
    }

    /** public_groups_list: the ids of the public groups, each with a member. */
    function PublicGroupsList(): (r: set<GroupId>)
      reads this, Repr
      ensures Valid() ==> r == model.public
      ensures Valid() ==> forall i | i in r :: i in publicGroups && publicGroups[i].users != map[]
    {
      publicGroups.Keys
    }

    /** has_group */
    function HasGroup(u: UserId): (r: bool)
      reads this, Repr
      ensures Valid() ==> (r <==> u in model.userRoom)
      ensures Valid() && r ==> u in userGroup[u].users
    {
      u in userGroup
    }
  }
}
