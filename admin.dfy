/**
 * The owner-only commands that change the entitlement store, `/approve` and
 * `/remove`, and the owner gate of the admin panel button.
 *
 * `sender` is the id of the command's author, `None` when the message has
 * no `from_user`. `command` is the command's token list as the chat
 * library delivers it (`command[0]` is the command name itself).
 * `replyTo` is `None` when the command is not a reply, and otherwise the
 * replied-to message's author (itself `None` when that message has no
 * `from_user`). `directory` stands for the library's username lookup
 * (`get_users`): a name outside it is a lookup that raises. Reading the id
 * of a missing author raises too. A handler that raises stops with no
 * reply and no change.
 */
module Admin {
  import opened Wrappers
  import opened Text
  import opened Numerals
  import opened Premium

  /** Whom a command designates: the author of the replied-to message, or a username. */
  datatype Target = RepliedTo(author: Option<UserId>) | Username(name: string)

  /** What `/approve` decides before any lookup. */
  datatype ApproveRequest =
    | ApproveNoSender
    | ApproveDenied
    | ReplyFormUsage
    | UsernameFormUsage
    | InvalidSeconds
    | Grant(target: Target, seconds: int)

  /** What `/remove` decides before any lookup. */
  datatype RemoveRequest = RemoveNoSender | RemoveDenied | RemoveUsage | Revoke(target: Target)

  /** The handler's answer to the sender. */
  datatype AdminReply =
    | OnlyOwner
    | UsageReply
    | InvalidSecondsReply
    | Approved(uid: UserId, expiresAt: Timestamp)
    | RemovedPremium(uid: UserId)
    | NoReply

  /**
   * `/approve`: only the owner; replying to a message, `/approve <seconds>`
   * grants its author; otherwise `/approve @username <seconds>`, with every
   * `@` removed from the name. The seconds are read by Python's `int()`.
   */
  function ParseApprove(sender: Option<UserId>, owner: UserId, command: seq<string>, replyTo: Option<Option<UserId>>): (r: ApproveRequest)
    ensures r == ApproveNoSender <==> sender.None?
    ensures r == ApproveDenied <==> sender.Some? && sender.value != owner
    ensures r == ReplyFormUsage <==> sender == Some(owner) && replyTo.Some? && |command| < 2
    ensures r == UsernameFormUsage <==> sender == Some(owner) && replyTo.None? && |command| < 3
    ensures r == InvalidSeconds <==>
      && sender == Some(owner)
      && if replyTo.Some? then |command| >= 2 && ParseInt(command[1]) == None
         else |command| >= 3 && ParseInt(command[2]) == None
    ensures r.Grant? && replyTo.Some? ==>
      |command| >= 2 && r.target == RepliedTo(replyTo.value) && ParseInt(command[1]) == Some(r.seconds)
    ensures r.Grant? && replyTo.None? ==>
      |command| >= 3 && r.target == Username(RemoveAll(command[1], '@')) && ParseInt(command[2]) == Some(r.seconds)
  {
    if sender.None? then ApproveNoSender
    else if sender.value != owner then ApproveDenied
    else if replyTo.Some? then
      if |command| < 2 then ReplyFormUsage
      else match ParseInt(command[1])
        case None => InvalidSeconds
        case Some(seconds) => Grant(RepliedTo(replyTo.value), seconds)
    else if |command| < 3 then UsernameFormUsage
    else
      var name := RemoveAll(command[1], '@');
      match ParseInt(command[2])
      case None => InvalidSeconds
      case Some(seconds) => Grant(Username(name), seconds)
  }

  /**
   * `/remove`: only the owner; a reply revokes the replied-to author,
   * otherwise `/remove @username` with every `@` removed from the name.
   */
  function ParseRemove(sender: Option<UserId>, owner: UserId, command: seq<string>, replyTo: Option<Option<UserId>>): (r: RemoveRequest)
    ensures r == RemoveNoSender <==> sender.None?
    ensures r == RemoveDenied <==> sender.Some? && sender.value != owner
    ensures r == RemoveUsage <==> sender == Some(owner) && replyTo.None? && |command| < 2
    ensures r.Revoke? && replyTo.Some? ==> r.target == RepliedTo(replyTo.value)
    ensures r.Revoke? && replyTo.None? ==> |command| >= 2 && r.target == Username(RemoveAll(command[1], '@'))
  {
    if sender.None? then RemoveNoSender
    else if sender.value != owner then RemoveDenied
    else if replyTo.Some? then Revoke(RepliedTo(replyTo.value))
    else if |command| < 2 then RemoveUsage
    else Revoke(Username(RemoveAll(command[1], '@')))
  }

  /**
   * The user a target stands for, or `None` when reading it raises: the
   * replied-to message has no author, or the username lookup fails.
   */
  function Resolve(target: Target, directory: map<string, UserId>): (u: Option<UserId>)
    ensures target.RepliedTo? ==> u == target.author
    ensures target.Username? ==> (u.Some? <==> target.name in directory)
    ensures target.Username? && u.Some? ==> u.value == directory[target.name]
  {
    match target
    case RepliedTo(author) => author
    case Username(name) => if name in directory then Some(directory[name]) else None
  }

  /** A username target never contains `@`, however the owner typed it. */
  lemma UsernameHasNoAt(sender: Option<UserId>, owner: UserId, command: seq<string>, replyTo: Option<Option<UserId>>)
    ensures ParseApprove(sender, owner, command, replyTo).Grant? && ParseApprove(sender, owner, command, replyTo).target.Username?
        ==> '@' !in ParseApprove(sender, owner, command, replyTo).target.name
    ensures ParseRemove(sender, owner, command, replyTo).Revoke? && ParseRemove(sender, owner, command, replyTo).target.Username?
        ==> '@' !in ParseRemove(sender, owner, command, replyTo).target.name
  {
  }

  /** `approve_user`: the owner gate, the argument rules, then at most one grant. */
  method ApproveUser(store: PremiumStore, owner: UserId, sender: Option<UserId>, command: seq<string>,
                     replyTo: Option<Option<UserId>>, directory: map<string, UserId>, now: Timestamp)
    returns (reply: AdminReply)
    modifies store
    ensures reply == OnlyOwner <==> sender.Some? && sender.value != owner
    ensures var req := ParseApprove(sender, owner, command, replyTo);
      reply == UsageReply <==> req == ReplyFormUsage || req == UsernameFormUsage
    ensures var req := ParseApprove(sender, owner, command, replyTo);
      reply == InvalidSecondsReply <==> req == InvalidSeconds
    ensures var req := ParseApprove(sender, owner, command, replyTo);
      reply == NoReply <==> req == ApproveNoSender || (req.Grant? && Resolve(req.target, directory).None?)
    ensures var req := ParseApprove(sender, owner, command, replyTo);
      reply.Approved? <==> req.Grant? && Resolve(req.target, directory).Some?
    ensures !reply.Approved? ==> store.users == old(store.users)
    ensures var req := ParseApprove(sender, owner, command, replyTo);
      reply.Approved? ==>
        && reply.uid == Resolve(req.target, directory).value
        && reply.expiresAt == now + req.seconds
        && store.users == Granted(old(store.users), reply.uid, req.seconds, now)
  {
    var request := ParseApprove(sender, owner, command, replyTo);
    match request
    case ApproveNoSender => reply := NoReply;
    case ApproveDenied => reply := OnlyOwner;
    case ReplyFormUsage => reply := UsageReply;
    case UsernameFormUsage => reply := UsageReply;
    case InvalidSeconds => reply := InvalidSecondsReply;
    case Grant(target, seconds) =>
      match Resolve(target, directory)
      case None => reply := NoReply;
      case Some(uid) =>
        store.AddPremium(uid, seconds, now);
        var expiry := store.GetExpiry(uid);
        reply := Approved(uid, expiry.value);
  }

  /** `remove_user`: the owner gate, the argument rules, then at most one revoke. */
  method RemoveUser(store: PremiumStore, owner: UserId, sender: Option<UserId>, command: seq<string>,
                    replyTo: Option<Option<UserId>>, directory: map<string, UserId>)
    returns (reply: AdminReply)
    modifies store
    ensures reply == OnlyOwner <==> sender.Some? && sender.value != owner
    ensures reply == UsageReply <==> ParseRemove(sender, owner, command, replyTo) == RemoveUsage
    ensures !reply.InvalidSecondsReply? && !reply.Approved?
    ensures var req := ParseRemove(sender, owner, command, replyTo);
      reply == NoReply <==> req == RemoveNoSender || (req.Revoke? && Resolve(req.target, directory).None?)
    ensures var req := ParseRemove(sender, owner, command, replyTo);
      reply.RemovedPremium? <==> req.Revoke? && Resolve(req.target, directory).Some?
    ensures !reply.RemovedPremium? ==> store.users == old(store.users)
    ensures var req := ParseRemove(sender, owner, command, replyTo);
      reply.RemovedPremium? ==>
        && reply.uid == Resolve(req.target, directory).value
        && store.users == Revoked(old(store.users), reply.uid)
  {
    var request := ParseRemove(sender, owner, command, replyTo);
    match request
    case RemoveNoSender => reply := NoReply;
    case RemoveDenied => reply := OnlyOwner;
    case RemoveUsage => reply := UsageReply;
    case Revoke(target) =>
      match Resolve(target, directory)
      case None => reply := NoReply;
      case Some(uid) =>
        store.RemovePremium(uid);
        reply := RemovedPremium(uid);
  }

  /** What the admin panel button shows. */
  datatype PanelOutcome = OwnerOnlyAlert | ShowPanel

  /** `admin_panel`: the panel opens for the owner alone. */
  function AdminPanel(sender: UserId, owner: UserId): (r: PanelOutcome)
    ensures r == ShowPanel <==> sender == owner
  {
    if sender != owner then OwnerOnlyAlert else ShowPanel
  }
}
