/**
 ActiveGroup: one chat room. It maps each member's user id to the chat id the bot
 sends that member's messages to, and accumulates the shared prompt.
 */
module Group {
  import opened Registry

  class ActiveGroup {
    const id: GroupId
    var users: map<UserId, ChatId>
    var prompt: string

    constructor (idx: GroupId)
      ensures id == idx && users == map[] && prompt == ""
    {
      id := idx;
      users := map[];
      prompt := "";
    }

    /** add_user: insert or overwrite the member's chat; adding the same pair twice is
        the same as adding it once. */
    method AddUser(u: UserId, c: ChatId)
      modifies this`users
      ensures users == old(users)[u := c]
      ensures old(u in users && users[u] == c) ==> users == old(users)
    {
      users := users[u := c];
    }

    /** remove_user: dict.pop raises KeyError for a user who is not a member. */
    method RemoveUser(u: UserId)
      requires u in users
      modifies this`users
      ensures users == old(users) - {u}
      ensures |users| == |old(users)| - 1
    {
      users := users - {u};
    }

    /** add_prompt: append the message and a newline, and return the whole prompt.
        The members are not touched. */
    method AddPrompt(msg: string) returns (r: string)
      modifies this`prompt
      ensures prompt == old(prompt) + msg + "\n"
      ensures r == prompt && old(prompt) <= r
      ensures users == old(users)
    {
      prompt := prompt + msg + "\n";
      r := prompt;
    }

    /** every_chat: the chats of all members. */
    function EveryChat(): (r: set<ChatId>)
      reads this
      ensures forall c :: c in r <==> exists v :: v in users && users[v] == c
    {
      set v | v in users :: users[v]
    }

    /** every_chat_except: the chats of all members other than u. */
    function EveryChatExcept(u: UserId): (r: set<ChatId>)
      reads this
      ensures forall c :: c in r <==> exists v :: v in users && v != u && users[v] == c
      ensures r <= EveryChat()
      ensures u !in users ==> r == EveryChat()
    {
      set v | v in users && v != u :: users[v]
    }

    /** When members have chats of their own, the chats other than u's are all the
        chats but u's. */
    lemma EveryChatExceptDistinct(u: UserId)
      requires u in users
      requires forall v, w | v in users && w in users && v != w :: users[v] != users[w]
      ensures EveryChatExcept(u) == EveryChat() - {users[u]}
    {
      forall c | c in EveryChat() - {users[u]}
        ensures c in EveryChatExcept(u)
      {
        var v :| v in users && users[v] == c;
        assert v != u;
      }
    }

    /** is_empty */
    function IsEmpty(): (r: bool)
      reads this
      ensures r <==> users == map[]
    {
      |users| == 0
    }
  }
}
