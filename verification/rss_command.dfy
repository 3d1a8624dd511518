/** The `rss` chat command: managing the feed subscriptions of the room the
    command was sent in. Feeds are identified by their URL. */
module RssCommand {
  import opened Wrappers
  import opened Chat
  import opened Database
  import opened SubscriptionCommands

  datatype SubCommand =
    | List
    | Clear
    | Enable(url: string)
    | Disable(url: string)

  const NoSubscriptions: string := "Currently, there are no RSS subscriptions."
  const Cleared: string := "Successfully cleared RSS subscriptions."
  const Enabled: string := "Successfully enabled RSS subscription."
  const InvalidFeed: string := "URL is not a valid RSS stream."
  const Disabled: string := "Successfully disabled RSS subscription."
  const NotFound: string := "RSS subscription not found."

  const RssReplies: Replies := Replies(NoSubscriptions, Cleared, Enabled, InvalidFeed, Disabled, NotFound)

  function Url(s: RssSubscription): string { s.url }

  /** The sub-command as a transition of the store. `feedValid` is whether
      `test_feed_url` succeeded for the URL; `initial` is the watermark a new
      subscription document starts with. */
  function AsRequest(room: RoomId, command: SubCommand, feedValid: bool, initial: int): Request<RssSubscription>
  {
    match command
    case List => Request.List
    case Clear => Request.Clear
    case Enable(url) => Request.Enable(RssSubscription(room, url, initial), feedValid)
    case Disable(url) => Request.Disable(url)
  }

  /** `Rss::execute`: the new store and the reply, if any. */
  function Execute(access: Access, sender: UserId, room: RoomId, store: seq<RssSubscription>,
                   command: SubCommand, feedValid: bool, initial: int)
    : (r: (seq<RssSubscription>, Option<Reply>))
    // Only admins and moderators are answered, and only they change anything.
    ensures !IsMod(access, sender) ==> r == (store, None)
    ensures IsMod(access, sender) ==> r.1.Some?
    ensures UniqueKeys(store, RssKey) ==> UniqueKeys(r.0, RssKey)
    // Subscriptions of other rooms are never touched.
    ensures forall k: Key :: k.0 != room ==> Find(r.0, RssKey, k) == Find(store, RssKey, k)
    ensures IsMod(access, sender) && command.List? ==>
              r.0 == store
              && r.1 == Some(ListReply(Labels(ForRoom(store, RssKey, room), Url), NoSubscriptions))
    ensures IsMod(access, sender) && command.Clear? ==>
              (forall s :: s in r.0 <==> s in store && s.room != room)
              && r.1 == Some(Plain(Cleared))
    ensures IsMod(access, sender) && command.Enable? ==>
              (r.1 == Some(Plain(Enabled)) <==> feedValid)
              && (feedValid ==> Find(r.0, RssKey, (room, command.url)) == Some(RssSubscription(room, command.url, initial)))
              && (!feedValid ==> r == (store, Some(Plain(InvalidFeed))))
    ensures IsMod(access, sender) && command.Disable? ==>
              Find(r.0, RssKey, (room, command.url)).None?
              && (r.1 == Some(Plain(Disabled)) <==> Find(store, RssKey, (room, command.url)).Some?)
              && (Find(store, RssKey, (room, command.url)).None? ==> r == (store, Some(Plain(NotFound))))
    ensures IsMod(access, sender) && (command.Enable? || command.Disable?) ==>
              forall k: Key :: k != (room, command.url) ==> Find(r.0, RssKey, k) == Find(store, RssKey, k)
  {
    if !IsMod(access, sender) then (store, None)
    else
      var (store', reply) := Manage(store, RssKey, Url, room, AsRequest(room, command, feedValid, initial), RssReplies);
      (store', Some(reply))
  }

  /** After a feed is enabled, listing the room's feeds shows it. */
  lemma EnableThenListShowsFeed(access: Access, sender: UserId, room: RoomId, store: seq<RssSubscription>,
                                url: string, initial: int)
    requires IsMod(access, sender)
    ensures var enabled := Execute(access, sender, room, store, SubCommand.Enable(url), true, initial).0;
            var listed := Execute(access, sender, room, enabled, SubCommand.List, true, initial).1.value;
            listed.Markdown? && url in Labels(ForRoom(enabled, RssKey, room), Url)
  {
    EnableThenList(store, RssKey, Url, room, RssSubscription(room, url, initial), RssReplies);
  }

  /** Disabling a feed twice: the second time nothing is found and nothing
      changes. */
  lemma DisableTwiceNotFound(access: Access, sender: UserId, room: RoomId, store: seq<RssSubscription>,
                             url: string, feedValid: bool, initial: int)
    requires IsMod(access, sender)
    ensures var once := Execute(access, sender, room, store, SubCommand.Disable(url), feedValid, initial).0;
            Execute(access, sender, room, once, SubCommand.Disable(url), feedValid, initial)
            == (once, Some(Plain(NotFound)))
  {
    DisableTwice(store, RssKey, Url, room, url, RssReplies);
  }

  /** After `clear`, `list` answers that there are no feeds. */
  lemma ClearThenListEmpty(access: Access, sender: UserId, room: RoomId, store: seq<RssSubscription>,
                           feedValid: bool, initial: int)
    requires IsMod(access, sender)
    ensures var cleared := Execute(access, sender, room, store, SubCommand.Clear, feedValid, initial).0;
            Execute(access, sender, room, cleared, SubCommand.List, feedValid, initial).1
            == Some(Plain(NoSubscriptions))
  {
    ClearThenList(store, RssKey, Url, room, RssReplies);
  }
}
