/** The `github` chat command: managing the Github notification
    subscriptions of the room the command was sent in. */
module GithubCommand {
  import opened Wrappers
  import opened Text
  import opened Chat
  import opened Database
  import opened SubscriptionCommands

  datatype SubCommand =
    | List
    | Clear
    | Enable(username: string, token: string)
    | Disable(username: string)

  const NoSubscriptions: string := "Currently, there are no Github subscriptions."
  const Cleared: string := "Successfully cleared Github subscriptions."
  const Enabled: string := "Successfully enabled Github subscription."
  const TokenInvalid: string := "Token is invalid."
  const Disabled: string := "Successfully disabled Github subscription."
  const NotFound: string := "Github subscription not found."

  const GithubReplies: Replies := Replies(NoSubscriptions, Cleared, Enabled, TokenInvalid, Disabled, NotFound)

  function User(s: GithubSubscription): string { s.user }

  /** The sub-command as a transition of the store. `tokenValid` is whether
      `test_token` succeeded for the given login and token; `initial` is the
      watermark a new subscription document starts with. */
  function AsRequest(room: RoomId, command: SubCommand, tokenValid: bool, initial: int)
    : Request<GithubSubscription>
  {
    match command
    case List => Request.List
    case Clear => Request.Clear
    case Enable(username, token) => Request.Enable(GithubSubscription(room, username, token, initial), tokenValid)
    case Disable(username) => Request.Disable(username)
  }

  /** `Github::execute`: the new store and the reply, if any. */
  function Execute(access: Access, sender: UserId, room: RoomId, store: seq<GithubSubscription>,
                   command: SubCommand, tokenValid: bool, initial: int)
    : (r: (seq<GithubSubscription>, Option<Reply>))
    // Only admins and moderators are answered, and only they change anything.
    ensures !IsMod(access, sender) ==> r == (store, None)
    ensures IsMod(access, sender) ==> r.1.Some?
    ensures UniqueKeys(store, GithubKey) ==> UniqueKeys(r.0, GithubKey)
    // Subscriptions of other rooms are never touched.
    ensures forall k: Key :: k.0 != room ==> Find(r.0, GithubKey, k) == Find(store, GithubKey, k)
    ensures IsMod(access, sender) && command.List? ==>
              r.0 == store
              && r.1 == Some(ListReply(Labels(ForRoom(store, GithubKey, room), User), NoSubscriptions))
    ensures IsMod(access, sender) && command.Clear? ==>
              (forall k: Key :: k.0 == room ==> Find(r.0, GithubKey, k).None?)
              && r.1 == Some(Plain(Cleared))
    ensures IsMod(access, sender) && command.Enable? ==>
              (r.1 == Some(Plain(Enabled)) <==> tokenValid)
              && (tokenValid ==>
                    Find(r.0, GithubKey, (room, command.username))
                    == Some(GithubSubscription(room, command.username, command.token, initial)))
              && (!tokenValid ==> r == (store, Some(Plain(TokenInvalid))))
    ensures IsMod(access, sender) && command.Disable? ==>
              Find(r.0, GithubKey, (room, command.username)).None?
              && (r.1 == Some(Plain(Disabled)) <==> Find(store, GithubKey, (room, command.username)).Some?)
              && (Find(store, GithubKey, (room, command.username)).None? ==> r == (store, Some(Plain(NotFound))))
    ensures IsMod(access, sender) && (command.Enable? || command.Disable?) ==>
              forall k: Key :: k != (room, command.username) ==> Find(r.0, GithubKey, k) == Find(store, GithubKey, k)
  {
    if !IsMod(access, sender) then (store, None)
    else
      var (store', reply) := Manage(store, GithubKey, User, room, AsRequest(room, command, tokenValid, initial), GithubReplies);
      (store', Some(reply))
  }

  /** With logins free of newlines, the `list` reply of a room with Github
      subscriptions has one line `- {user}` per subscription of the room, in
      store order. */
  lemma ListShowsEachUser(access: Access, sender: UserId, room: RoomId, store: seq<GithubSubscription>,
                          tokenValid: bool, initial: int)
    requires IsMod(access, sender)
    requires ForRoom(store, GithubKey, room) != []
    requires forall s :: s in store ==> '\n' !in s.user
    ensures var reply := Execute(access, sender, room, store, SubCommand.List, tokenValid, initial).1.value;
            var subs := ForRoom(store, GithubKey, room);
            reply.Markdown?
            && Split(reply.text, '\n') == Bullets(Labels(subs, User))
            && forall i :: 0 <= i < |subs| ==> Split(reply.text, '\n')[i] == "- " + subs[i].user
  {
    var subs := ForRoom(store, GithubKey, room);
    var users := Labels(subs, User);
    forall i | 0 <= i < |users|
      ensures '\n' !in users[i]
    {
      assert subs[i] in subs;
    }
    ListReplyLines(users, NoSubscriptions);
  }

  /** Enabling a login and then disabling it leaves every other subscription
      as it was. */
  lemma EnableThenDisableRestores(access: Access, sender: UserId, room: RoomId, store: seq<GithubSubscription>,
                                  username: string, token: string, initial: int)
    requires IsMod(access, sender)
    ensures var enabled := Execute(access, sender, room, store, SubCommand.Enable(username, token), true, initial).0;
            var disabled := Execute(access, sender, room, enabled, SubCommand.Disable(username), true, initial);
            disabled.1 == Some(Plain(Disabled))
            && Find(disabled.0, GithubKey, (room, username)).None?
            && forall k: Key :: k != (room, username) ==> Find(disabled.0, GithubKey, k) == Find(store, GithubKey, k)
  {
    EnableThenDisable(store, GithubKey, User, room, GithubSubscription(room, username, token, initial),
                      username, GithubReplies);
  }
}
