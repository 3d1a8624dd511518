/** The bot's commands and their dispatch. A command message has already been
    tokenized and parsed into a `Command`; executing it hands the context to
    the chosen sub-command. */
module Commands {
  import opened Wrappers
  import opened Chat
  import opened Database
  import opened SubscriptionCommands
  import RssCommand
  import GithubCommand

  datatype Command =
    | Leave
    | Remind(who: string, when: string, message: string)
    | Rss(rss: RssCommand.SubCommand)
    | Github(github: GithubCommand.SubCommand)

  /** The two subscription collections the commands work on. */
  datatype Stores = Stores(github: seq<GithubSubscription>, rss: seq<RssSubscription>)

  /** What a command leaves behind: the stores, the reply sent to the room,
      and whether the bot leaves the room. */
  datatype Outcome = Outcome(stores: Stores, reply: Option<Reply>, leave: bool)

  /** What the sub-commands learn from the outside world: whether a Github
      token and a feed URL passed their tests, and the watermark new
      subscriptions start with. */
  datatype Oracle = Oracle(tokenValid: bool, feedValid: bool, initial: int)

  /** `Command::execute`. */
  function Execute(access: Access, sender: UserId, room: RoomId, stores: Stores,
                   command: Command, oracle: Oracle): (r: Outcome)
    // Nobody but an admin or a moderator changes anything or gets an answer.
    ensures !IsMod(access, sender) ==> r == Outcome(stores, None, false)
    // Only `leave` makes the bot leave, and only for a moderator.
    ensures r.leave <==> command.Leave? && IsMod(access, sender)
    // `leave` and `remind` neither reply nor touch the stores.
    ensures command.Leave? || command.Remind? ==> r.stores == stores && r.reply.None?
    // Each subscription command works on its own collection only.
    ensures !command.Github? ==> r.stores.github == stores.github
    ensures !command.Rss? ==> r.stores.rss == stores.rss
    // A moderator's subscription command is always answered.
    ensures IsMod(access, sender) && (command.Rss? || command.Github?) ==> r.reply.Some?
    // No command touches another room's subscriptions.
    ensures forall k: Key :: k.0 != room ==>
              Find(r.stores.github, GithubKey, k) == Find(stores.github, GithubKey, k)
              && Find(r.stores.rss, RssKey, k) == Find(stores.rss, RssKey, k)
    // Unique identities in both collections stay unique.
    ensures UniqueKeys(stores.github, GithubKey) ==> UniqueKeys(r.stores.github, GithubKey)
    ensures UniqueKeys(stores.rss, RssKey) ==> UniqueKeys(r.stores.rss, RssKey)
  {
    match command
    case Leave => Outcome(stores, None, IsMod(access, sender))
    case Remind(_, _, _) => Outcome(stores, None, false)
    case Rss(sub) =>
      var (rss, reply) := RssCommand.Execute(access, sender, room, stores.rss, sub, oracle.feedValid, oracle.initial);
      Outcome(stores.(rss := rss), reply, false)
    case Github(sub) =>
      var (github, reply) := GithubCommand.Execute(access, sender, room, stores.github, sub, oracle.tokenValid, oracle.initial);
      Outcome(stores.(github := github), reply, false)
  }
}
