# Group registry of the chat bot, in Dafny

The bot relays messages among the Telegram users of a group chat. The part modelled here
is its group registry in `src/__init__.py`. It has two classes.

- **`ActiveGroup`** is one room. It has an id, a map from each member's user id to
  the chat the bot writes to, and a prompt that only grows.
- **`GroupManager`** is the registry. It has:
  - a map from user to the group the user is in (`_user_group`);
  - a map from id to group for the published groups (`_public_groups`);
  - a counter that issues group ids (`_next_id_counter`).

  Its operations create, publish, close, join and leave groups, and answer lookups.

The project has three modules.

- `registry.dfy`, module `Registry`: the registry as a value (`State`). It holds:
  - the members of every group created, by id;
  - the group of every user;
  - the set of public ids;
  - the counter.

  Each manager operation is a function from state to state plus its result. The
  module states the invariant `Inv`: ids come from the counter, a mapped user is a
  member of its group, and a public group has a member. The stronger `Partitioned`
  adds that every member is mapped to its group. The module proves what each
  operation does. Every operation preserves `Inv`, one request at a time
  (`ApplyInv`) and over any sequence of requests (`Run`). `Partitioned` is preserved
  when every join comes from a user without a group (`JoinPartitioned`,
  `ApplyPartitioned`, `RunPartitioned`). An overwriting join breaks it
  (`JoinOverwrite`).
  - Naming: in `State` a group is called a room. `rooms` holds the members of every
    group by id, and `userRoom` is the group id of every user. These names keep the
    value apart from the object-valued `userGroup` map and the `ActiveGroup` objects
    of the classes. The manager's ghost `rooms` is the same table by id, holding the
    `ActiveGroup` objects in place of their member maps.
- `active_group.dfy`, module `Group`: the class `ActiveGroup`. Its fields are
  updated in place by its methods; its queries are functions.
- `group_manager.dfy`, module `Manager`: the class `GroupManager`.
  - Its fields are the two dictionaries and the counter.
  - Two ghost fields name the objects: a table `rooms` of every group created and
    its set `Repr`.
  - A ghost field `model` is the `Registry.State` the object stands for.
  - `Valid()` couples the fields to `model` and requires `Inv(model)`.
  - Each method that changes the registry is proved to change `model` exactly as
    the matching `Registry` function does and to return its result. `UserLeaves`
    returns the group object filed under the id that `Registry.Leave` returns.
  - `NextId` is the counter step inside `NewGroup`. On its own it only increments
    the counter; `NewGroup` keeps `Valid()` around it.
  - The frames of the methods name the `users` field of the groups, never their
    `prompt`, so no manager method changes a prompt.

Group identity is the group id. This is sound because `Valid()` files every group
under its own id and the counter never issues an id twice.

A user maps to at most one group because `_user_group` is a map. The `assert` in
`remove_group` cannot fire when `user_leaves` calls it. Two members show this:
`Registry.LeaveAllowed` proves it for every state satisfying `Inv`, and
`Manager.GroupManager.UserLeaves` calls `RemoveGroup` under that precondition.

Where the code and its comments disagree, the model follows the code:

- The comment on `user_leaves` (`src/__init__.py:165`) speaks of `False`/`True`. The
  method returns `None` or the group; `UserLeaves` returns an `Option`.
- The comment on `user_joins` (`src/__init__.py:181`) says joining fails when the
  user is already in a group. The code does not check this. `Join` and `UserJoins`
  carry no such precondition:
  - `Registry.JoinInv` shows that `Inv` still holds;
  - `Registry.JoinOverwrite` shows that the user then stays a member of the old group
    while being mapped to the new one;
  - `Registry.JoinPartitioned` and `Registry.RunPartitioned` show that `Partitioned`
    is kept when joins come only from users without a group, which is what the bot's
    join handler ensures by making the user leave first.

## Model

| member | source | states |
|---|---|---|
| Group.ActiveGroup.constructor | src/__init__.py:91-96 | a new room has the given id, no members and an empty prompt |
| Group.ActiveGroup.AddUser | src/__init__.py:98-99 | the user's chat is inserted or overwritten and nothing else changes; adding a pair already present changes nothing |
| Group.ActiveGroup.RemoveUser | src/__init__.py:101-102 | requires the user to be a member (pop raises otherwise); removes exactly that key, so the member count drops by one |
| Group.ActiveGroup.AddPrompt | src/__init__.py:104-107 | the prompt becomes the old prompt, the message and a newline; the new prompt is returned, it extends the old one, and the members are unchanged |
| Group.ActiveGroup.EveryChat | src/__init__.py:109-110 | a chat is returned exactly when some member has it |
| Group.ActiveGroup.EveryChatExcept | src/__init__.py:112-113 | a chat is returned exactly when some member other than u has it; a subset of every_chat, and equal to it when u is not a member |
| Group.ActiveGroup.EveryChatExceptDistinct | src/__init__.py:109-113 | when members have distinct chats, every_chat_except(u) is every_chat without u's chat |
| Group.ActiveGroup.IsEmpty | src/__init__.py:115-116 | true exactly when the room has no members |
| Registry.InitInv | src/__init__.py:120-127 | the empty registry satisfies Partitioned: no groups, no public ids, counter 0 |
| Registry.NewGroupFresh | src/__init__.py:199-207 | new_group issues the counter value, which is above every existing id; the counter grows by one; the new group's only member is the caller with its chat; the user map gains exactly the caller, mapped to it; other groups and the public ids are unchanged |
| Registry.NewGroupInv | src/__init__.py:199-207 | new_group keeps Inv |
| Registry.NewGroupPartitioned | src/__init__.py:199-207 | new_group keeps Partitioned |
| Registry.PublishSpec | src/__init__.py:134-144 | publish succeeds exactly when the caller has a private group; on failure nothing changes; on success exactly that id is added to the public ids, and the groups, the user map and the counter are unchanged |
| Registry.PublishInv | src/__init__.py:134-144 | publish keeps Inv and Partitioned |
| Registry.CloseSpec | src/__init__.py:146-157 | close succeeds exactly when the caller's group is public; on failure nothing changes; on success exactly that id is removed, and the groups, the user map and the counter are unchanged |
| Registry.CloseInv | src/__init__.py:146-157 | close keeps Inv and Partitioned |
| Registry.PublishThenClose | src/__init__.py:134-157 | a successful publish followed by close restores the state and succeeds |
| Registry.CloseThenPublish | src/__init__.py:134-157 | a successful close followed by publish restores the state and succeeds |
| Registry.JoinSpec | src/__init__.py:182-191 | for any integer id, join succeeds exactly when the id is public, so a negative id fails; on failure nothing changes; on success the user is added to that group with its chat and mapped to it, with other groups, the public ids and the counter unchanged |
| Registry.JoinInv | src/__init__.py:182-191 | join keeps Inv even when the user already has a group |
| Registry.JoinPartitioned | src/__init__.py:182-191 | join keeps Partitioned when the user has no group |
| Registry.JoinOverwrite | src/__init__.py:181-191 | joining while in another group leaves the user a member of the old group while mapped to the new one, which breaks Partitioned |
| Registry.LeaveAllowed | src/__init__.py:159-176 | from any state satisfying Inv, user_leaves raises nothing: remove_user finds the user, and when remove_group is reached no other user maps to the group |
| Registry.RejoinEmptied | src/__init__.py:166-191 | a user alone in a public group who leaves it and joins it again fails and ends with no group, so the join handler's later get_group raises |
| Registry.LeaveSpec | src/__init__.py:166-179 | no change and None for a user without a group; otherwise the user is unmapped and removed from its group; the group is unlisted and None returned exactly when it is now empty and was public; otherwise the group is returned |
| Registry.LeaveInv | src/__init__.py:159-179 | user_leaves keeps Inv, so a group emptied by its last member is no longer public |
| Registry.LeavePartitioned | src/__init__.py:159-179 | user_leaves keeps Partitioned |
| Registry.ApplyInv | src/__init__.py:134-207 | every request keeps Inv |
| Registry.ApplyPartitioned | src/__init__.py:134-207 | every request keeps Partitioned when a join comes only from a user without a group |
| Registry.ApplyGrows | src/__init__.py:129-132 | a request never lowers the counter and never forgets a created group |
| Registry.Run | src/__init__.py:134-207 | any sequence of requests from a state satisfying Inv ends in a state satisfying Inv |
| Registry.RunPartitioned | src/__init__.py:134-207 | any sequence whose joins come from users without a group keeps Partitioned |
| Registry.RunGrows | src/__init__.py:129-132 | over any sequence the counter only grows and every earlier id stays below it, so ids are never reused |
| Registry.Scenario | src/__init__.py:166-207 | create, publish, join, leave and leave from the empty registry: the group stays public while it has a member and is unlisted when emptied; joining an unissued id or a negative id fails; a second create by a user in a group changes nothing |
| Manager.DetachedEmpty | src/__init__.py:159-176 | after the leaving user's group is emptied, no remaining user maps to it: the remove_group assertion holds |
| Manager.GroupManager.constructor | src/__init__.py:120-127 | a new manager is valid and stands for the empty registry |
| Manager.GroupManager.NextId | src/__init__.py:129-132 | returns the counter before the call and increments it by one |
| Manager.GroupManager.PublishGroup | src/__init__.py:134-144 | stays valid; the result and the new state are those of Registry.Publish |
| Manager.GroupManager.CloseGroup | src/__init__.py:146-157 | stays valid; the result and the new state are those of Registry.Close |
| Manager.GroupManager.RemoveGroup | src/__init__.py:159-163 | requires that no user maps to the group (the assertion) and that it is public (the pop); removes exactly that id from the public map, as Registry.RemoveGroup |
| Manager.GroupManager.DetachUser | src/__init__.py:171-173 | removes the user from its group's members and from the user map, as Registry.Detach, and returns that group; only that group's members change |
| Manager.GroupManager.UserLeaves | src/__init__.py:166-179 | never fails from a valid state; stays valid; the new state is that of Registry.Leave; a group is returned exactly when Registry.Leave returns its id, and it is the group filed under that id; only the members of groups change, never a prompt |
| Manager.GroupManager.UserJoins | src/__init__.py:182-191 | takes any integer id; stays valid; the result and the new state are those of Registry.Join; only the members of groups change, never a prompt |
| Manager.GroupManager.PublicGroupExists | src/__init__.py:193-194 | takes any integer id; true exactly when the id is public; that group has this id and a member |
| Manager.GroupManager.GetGroup | src/__init__.py:196-197 | requires the user to have a group (the lookup raises otherwise); returns the group the model maps the user to, with the user as a member |
| Manager.GroupManager.NewGroup | src/__init__.py:199-207 | requires the caller to have no group (the assertion); returns a new object filed under the id of Registry.NewGroup, with an empty prompt, the caller mapped to it, and the state of Registry.NewGroup |
| Manager.GroupManager.PublicGroupsList | src/__init__.py:209-210 | exactly the public ids, each group with a member |
| Manager.GroupManager.HasGroup | src/__init__.py:212-213 | true exactly when the user is mapped to a group, and then the user is a member of it |

## Left out

- The class-wide `threading.Lock` in `add_prompt`: the model is sequential, and
  `AddPrompt` is a plain append.
- Group.ActiveGroup.EveryChat returns a set. The source's dictionary view keeps
  insertion order and repeats a chat shared by two members; the model states
  membership only.
- Group.ActiveGroup.EveryChatExcept returns a set. The source's lazy `map` keeps
  insertion order and repeats a chat shared by two members; the model states
  membership only.
- Prompts are not part of `Registry.State`, because no manager operation reads or
  writes them. `NewGroup` states that the new group's prompt is empty.
- Manager.GroupManager.DetachUser is not a method of the source. It is the first half
  of `user_leaves` (`remove_user` on the group, then the pop of the user's entry), split
  out so that the proof stays small.
- Manager.GroupManager.RemoveGroup visits the keys of `_user_group` instead of its
  values. The same groups are checked.
- Manager.GroupManager.RemoveGroup and Manager.GroupManager.NewGroup turn the source's
  `assert` and `pop` failures into preconditions. Registry.LeaveAllowed proves that
  `user_leaves` always calls `remove_group` with them met.
- Group.ActiveGroup.RemoveUser turns the KeyError of `pop` into the precondition that
  the user is a member. Registry.LeaveAllowed proves that `user_leaves` meets it.
- Manager.GroupManager.GetGroup turns the KeyError of the lookup into the precondition
  that the user has a group. The bot's join handler does reach the excluded case, at
  `src/__init__.py:327`. Take a user alone in a public group who asks to join that same
  group. Leaving first empties and unlists the group, the join then fails, and
  `get_group` raises for the user, who now has no group. Registry.RejoinEmptied proves
  this sequence.
- Manager.GroupManager.PublicGroupsList returns a set. The source's `keys()` view keeps
  publication order; the model states membership only.
- Manager.GroupManager.UserJoins, Manager.GroupManager.NewGroup and
  Manager.GroupManager.DetachUser apply their updates in a different order from the
  source. For example, DetachUser pops the user's entry before removing the member. The
  resulting state is the same, because nothing can observe the intermediate states.
- `Provider` and `ImageProvider` (HTTP and JSON), `Bot` (Telegram handlers, keyboards,
  notifications, the image cache), `main` and the unused `State` enum: network I/O and
  process entry, not part of this model. The handlers' leave-before-join discipline
  appears only as preconditions:
  - the `u !in s.userRoom` precondition of `Registry.JoinPartitioned`;
  - the `JoinsFromNoGroup` condition of `Registry.ApplyPartitioned`;
  - the `Disciplined` precondition of `Registry.RunPartitioned`, built from
    `JoinsFromNoGroup`.
- Integer widths: Python integers are unbounded. Issued ids and the counter are `nat`.
  User ids, chat ids and the ids a caller passes to `user_joins` and
  `public_group_exists` are `int`. `remove_group` is called only with an issued id.
