/** `handle_message`: what the bot does with one incoming text message. Everything it
    asks of the outside world (the link finder, the downloaders, the store) is given as an
    `Env` of answers, and what it does is a trace of `Action`s. */
module Dispatch {
  import opened Wrappers
  import opened PyStr
  import opened MediaBase

  const ChatCreated := "Чат был успешно создан"
  const SomethingWrong := "Что-то пошло не так"
  const RegisterChatFirst := "Сначала выполните /create chat в этом чате."
  const UserAdded := "Пользователь был успешно добавлен"
  const UserUpdated := "Пользователь был успешно изменен"
  const GroupDeleted := "Group was succesfully delited"
  const GroupNotDeleted := "Something went wrong"
  const VideoFailed := "Failed to download video."
  const MediaFailed := "Failed to download media."
  const GetCommands := "/get_commands@TikTokDownloaderRusBot"
  const CommandList :=
    "/create chat - Add current chat to bot DB\n" +
    "/create me - Add current user to bot DB\n" +
    "/update me - Update user info in bot DB\n" +
    "/create group name:{name} users:{username},{username} - Add group to chat\n" +
    "/add to group name:{name} users:{username},{username} - Add users to group\n" +
    "/delete group name:{name} - Delete group from chat\n" +
    "/delete users group name:{name} users:{username},{username}- delete users from group"

  /** The store commands of the `if`/`elif` chain. */
  datatype Command =
    | CreateChat | CreateMe | UpdateMe | CreateGroup | DeleteGroup | AddToGroup | DeleteUsersFromGroup
    | NoCommand

  datatype MediaKind = TikTokMedia | InstagramMedia

  /** A group of the chat as `getAllGroups` lists it; `usernames` is the reply of
      `getUsernamesByGroup` for it. `None` stands for any way that reply cannot be
      produced, so the handler raises: the lookup by name finds no group (TypeError on
      `None["id"]`), or the usernames query itself raises. */
  datatype GroupInfo = GroupInfo(name: string, usernames: Option<string>)

  /** The answers of everything outside the handler for this message. A download may
      raise (a non-JSON body, an ill-shaped payload); nothing in the handler catches it. */
  datatype Env = Env(
    link: Option<string>,
    tiktokMedia: Py<Option<MediaInfo>>,
    instagramMedia: Py<Option<MediaInfo>>,
    chatCreated: bool,
    chatRegistered: bool,
    userCreated: bool,
    chatLinked: bool,
    userUpdated: bool,
    createGroupReply: string,
    groupDeleted: bool,
    addUsersReply: string,
    deleteUsersReply: string,
    allUsernames: string,
    groups: seq<GroupInfo>)

  datatype Message = Message(edited: bool, text: string)

  datatype Action =
    | Reply(text: string)
    | ReplyVideo(url: Json)
    | ReplyPhoto(url: Json)
    | Download(kind: MediaKind)
    | StoreCall(command: Command)

  /** The branch of the command chain a text selects; the first test that holds wins. */
  function CommandOf(text: string): Command {
    if text == "/create chat" then CreateChat
    else if text == "/create me" then CreateMe
    else if text == "/update me" then UpdateMe
    else if StartsWith(text, "/create group ") then CreateGroup
    else if StartsWith(text, "/delete group name:") then DeleteGroup
    else if StartsWith(text, "/add to group ") then AddToGroup
    else if StartsWith(text, "/delete users group ") then DeleteUsersFromGroup
    else NoCommand
  }

  /** The links the handler downloads, by kind. */
  function LinkKind(link: string): Option<MediaKind> {
    if Contains(link, "tiktok.com") then Some(TikTokMedia)
    else if Contains(link, "instagram.com/reel/") || Contains(link, "instagram.com/p/") then Some(InstagramMedia)
    else None
  }

  /** What the downloader of that kind answered. */
  function MediaOf(env: Env, kind: MediaKind): Py<Option<MediaInfo>> {
    match kind
    case TikTokMedia => env.tiktokMedia
    case InstagramMedia => env.instagramMedia
  }

  /** The media part: download what the found link points at and answer with it, and
      whether the download raised (which ends the handler). */
  function MediaActions(env: Env): (r: (seq<Action>, bool))
    ensures forall k :: 0 <= k < |r.0| ==> !r.0[k].StoreCall?
    ensures env.link.None? ==> r == ([], false)
    ensures r.1 <==> (env.link.Some? && LinkKind(env.link.value).Some? &&
                      MediaOf(env, LinkKind(env.link.value).value).Raises?)
    ensures r.1 ==> r.0 == [Download(LinkKind(env.link.value).value)]
  {
    match env.link
    case None => ([], false)
    case Some(link) =>
      if Contains(link, "tiktok.com") then
        match env.tiktokMedia
        case Raises(_) => ([Download(TikTokMedia)], true)
        case Value(Some(m)) => ([Download(TikTokMedia), ReplyVideo(m.url)], false)
        case Value(None) => ([Download(TikTokMedia), Reply(VideoFailed)], false)
      else if Contains(link, "instagram.com/reel/") || Contains(link, "instagram.com/p/") then
        match env.instagramMedia
        case Raises(_) => ([Download(InstagramMedia)], true)
        case Value(Some(m)) =>
          ([Download(InstagramMedia), if m.extension == ".jpeg" then ReplyPhoto(m.url) else ReplyVideo(m.url)], false)
        case Value(None) => ([Download(InstagramMedia), Reply(MediaFailed)], false)
      else ([], false)
  }

  /** The command part, and whether the handler returns right after it. */
  function CommandActions(command: Command, env: Env): (r: (seq<Action>, bool))
    ensures r.1 <==> command == CreateMe && !env.chatRegistered
    ensures command == NoCommand ==> r.0 == []
    ensures forall k :: 0 <= k < |r.0| && r.0[k].StoreCall? ==> k == 0 && r.0[k].command == command
  {
    match command
    case CreateChat => ([StoreCall(CreateChat), Reply(if env.chatCreated then ChatCreated else SomethingWrong)], false)
    case CreateMe =>
      if !env.chatRegistered then ([Reply(RegisterChatFirst)], true)
      else ([StoreCall(CreateMe), Reply(if env.userCreated && env.chatLinked then UserAdded else SomethingWrong)], false)
    case UpdateMe => ([StoreCall(UpdateMe), Reply(if env.userUpdated then UserUpdated else SomethingWrong)], false)
    case CreateGroup => ([StoreCall(CreateGroup), Reply(env.createGroupReply)], false)
    case DeleteGroup => ([StoreCall(DeleteGroup), Reply(if env.groupDeleted then GroupDeleted else GroupNotDeleted)], false)
    case AddToGroup => ([StoreCall(AddToGroup), Reply(env.addUsersReply)], false)
    case DeleteUsersFromGroup => ([StoreCall(DeleteUsersFromGroup), Reply(env.deleteUsersReply)], false)
    case NoCommand => ([], false)
  }

  /** The reply for a mentioned group: its usernames, a newline, and the text with every
      mention of the group (its name without "@"s) removed. */
  function MentionReply(text: string, name: string, usernames: string): string {
    usernames + "\n" + ReplaceAll(text, "@" + RemoveAll(name, '@'))
  }

  /** The loop over the chat's groups: one reply per group mentioned as "@name", and
      whether a lookup raised (which ends the handler). */
  function GroupReplies(text: string, groups: seq<GroupInfo>): (r: (seq<Action>, bool))
    ensures forall k :: 0 <= k < |r.0| ==> r.0[k].Reply?
  {
    if groups == [] then ([], false)
    else
      var (replies, raised) := GroupReplies(text, groups[..|groups| - 1]);
      var g := groups[|groups| - 1];
      if raised || !Contains(text, "@" + g.name) then (replies, raised)
      else if g.usernames.None? then (replies, true)
      else (replies + [Reply(MentionReply(text, g.name, g.usernames.value))], false)
  }

  /** The mention part: "@all" answers with every username; otherwise any "@" makes the
      handler go through the groups. */
  function MentionActions(text: string, env: Env): (r: (seq<Action>, bool))
    ensures forall k :: 0 <= k < |r.0| ==> r.0[k].Reply?
  {
    if Contains(text, "@all") then ([Reply(env.allUsernames)], false)
    else if Contains(text, "@") then GroupReplies(text, env.groups)
    else ([], false)
  }

  /** What follows the command chain: the command list on request, then the mentions. */
  function AfterCommands(text: string, env: Env): (r: (seq<Action>, bool))
    ensures forall k :: 0 <= k < |r.0| ==> r.0[k].Reply?
  {
    var help := if text == GetCommands then [Reply(CommandList)] else [];
    var (mentions, raised) := MentionActions(text, env);
    (help + mentions, raised)
  }

  /** The whole handler: its actions, and whether it ended by raising. */
  function Handled(msg: Message, env: Env): (seq<Action>, bool) {
    if msg.edited then ([], false)
    else
      var (media, mediaRaised) := MediaActions(env);
      if mediaRaised then (media, true)
      else
      var (commandActions, stop) := CommandActions(CommandOf(msg.text), env);
      if stop then (media + commandActions, false)
      else
        var (rest, raised) := AfterCommands(msg.text, env);
        (media + commandActions + rest, raised)
  }

  /** The loop of `handle_message` over the chat's groups. */
  method MentionGroups(text: string, groups: seq<GroupInfo>) returns (replies: seq<Action>, raised: bool)
    ensures (replies, raised) == GroupReplies(text, groups)
  {
    replies, raised := [], false;
    var i := 0;
    while i < |groups|
      invariant 0 <= i <= |groups|
      invariant (replies, raised) == GroupReplies(text, groups[..i])
      invariant raised ==> GroupReplies(text, groups) == (replies, true)
    {
      assert groups[..i + 1][..i] == groups[..i];
      var g := groups[i];
      if Contains(text, "@" + g.name) {
        if g.usernames.None? {
          raised := true;
          GroupRepliesStopped(text, groups, i + 1);
          return;
        }
        replies := replies + [Reply(MentionReply(text, g.name, g.usernames.value))];
      }
      i := i + 1;
    }
    assert groups[..i] == groups;
  }

  /** The command list and mention part of `handle_message`. */
  method ReplyAfterCommands(text: string, env: Env) returns (actions: seq<Action>, raised: bool)
    ensures (actions, raised) == AfterCommands(text, env)
  {
    var help := if text == GetCommands then [Reply(CommandList)] else [];
    var mentions := [];
    raised := false;
    if Contains(text, "@all") {
      mentions := [Reply(env.allUsernames)];
    } else if Contains(text, "@") {
      mentions, raised := MentionGroups(text, env.groups);
    }
    actions := help + mentions;
  }

  /** `handle_message`. */
  method HandleMessage(msg: Message, env: Env) returns (actions: seq<Action>, raised: bool)
    ensures (actions, raised) == Handled(msg, env)
    ensures msg.edited ==> actions == [] && !raised
    ensures (!msg.edited && env.link.Some? && LinkKind(env.link.value).Some? &&
             MediaOf(env, LinkKind(env.link.value).value).Raises?) ==>
      actions == [Download(LinkKind(env.link.value).value)] && raised
  {
    if msg.edited {
      return [], false;
    }
    var (media, mediaRaised) := MediaActions(env);
    if mediaRaised {
      return media, true;
    }
    var command := CommandOf(msg.text);
    var (commandActions, stop) := CommandActions(command, env);
    actions := media + commandActions;
    if stop {
      return actions, false;
    }
    var rest;
    rest, raised := ReplyAfterCommands(msg.text, env);
    actions := actions + rest;
  }

  /** Once a lookup has raised for a prefix of the groups, the loop has raised for all. */
  lemma {:induction false} GroupRepliesStopped(text: string, groups: seq<GroupInfo>, n: nat)
    requires n <= |groups| && GroupReplies(text, groups[..n]).1
    ensures GroupReplies(text, groups) == (GroupReplies(text, groups[..n]).0, true)
    decreases |groups| - n
  {
    if n < |groups| {
      assert groups[..n + 1][..n] == groups[..n];
      GroupRepliesStopped(text, groups, n + 1);
    } else {
      assert groups[..n] == groups;
    }
  }

  // ---------------------------------------------------------------------------------
  // Properties

  /** At most one store command runs per message, and it is the one the text selects. */
  lemma OneStoreCommand(msg: Message, env: Env)
    ensures var actions := Handled(msg, env).0;
      (forall i, j :: 0 <= i < |actions| && 0 <= j < |actions| && actions[i].StoreCall? && actions[j].StoreCall? ==> i == j) &&
      (forall i :: 0 <= i < |actions| && actions[i].StoreCall? ==> actions[i].command == CommandOf(msg.text) && CommandOf(msg.text) != NoCommand)
  {
    if !msg.edited {
      var media := MediaActions(env).0;
      var (commandActions, stop) := if MediaActions(env).1 then ([], true) else CommandActions(CommandOf(msg.text), env);
      var rest := if stop then [] else AfterCommands(msg.text, env).0;
      var actions := Handled(msg, env).0;
      assert actions == media + commandActions + rest;
      forall i | 0 <= i < |actions| && actions[i].StoreCall?
        ensures i == |media| && actions[i].command == CommandOf(msg.text) && CommandOf(msg.text) != NoCommand
      {
        if |media| <= i < |media| + |commandActions| {
          assert actions[i] == commandActions[i - |media|];
        }
      }
    }
  }

  /** `/create me` in an unregistered chat only asks to register the chat first: no store
      command, and nothing after it; in a registered chat it reports success exactly when
      both the user and the link were created. */
  lemma CreateMeBehaviour(msg: Message, env: Env)
    requires !msg.edited && msg.text == "/create me"
    ensures !MediaActions(env).1 && !env.chatRegistered ==>
      Handled(msg, env) == (MediaActions(env).0 + [Reply(RegisterChatFirst)], false)
    ensures !MediaActions(env).1 && env.chatRegistered ==>
      var actions := Handled(msg, env).0;
      var n := |MediaActions(env).0|;
      |actions| >= n + 2 && actions[n] == StoreCall(CreateMe) &&
      (actions[n + 1] == Reply(UserAdded) <==> env.userCreated && env.chatLinked)
  {
    if env.chatRegistered && !MediaActions(env).1 {
      var media := MediaActions(env).0;
      var commandActions := CommandActions(CreateMe, env).0;
      assert Handled(msg, env).0 == media + commandActions + AfterCommands(msg.text, env).0;
      assert UserAdded != SomethingWrong;
    }
  }

  /** With "@all" in the text the only mention reply is the list of every username. */
  lemma AllMentionOnly(msg: Message, env: Env)
    requires !msg.edited && Contains(msg.text, "@all") && !(CommandOf(msg.text) == CreateMe && !env.chatRegistered)
    ensures var help := if msg.text == GetCommands then [Reply(CommandList)] else [];
      !MediaActions(env).1 ==>
      Handled(msg, env) == (MediaActions(env).0 + CommandActions(CommandOf(msg.text), env).0 + help + [Reply(env.allUsernames)], false)
  {
    var help := if msg.text == GetCommands then [Reply(CommandList)] else [];
    var front := MediaActions(env).0 + CommandActions(CommandOf(msg.text), env).0;
    assert AfterCommands(msg.text, env) == (help + [Reply(env.allUsernames)], false);
    assert front + (help + [Reply(env.allUsernames)]) == front + help + [Reply(env.allUsernames)];
  }

  /** The reply of a mentioned group, if it has one. */
  function GroupReplyOf(text: string, g: GroupInfo): Option<Action> {
    if Contains(text, "@" + g.name) && g.usernames.Some? then Some(Reply(MentionReply(text, g.name, g.usernames.value)))
    else None
  }

  /** The group loop raises exactly when a mentioned group's lookup fails. */
  lemma {:induction false} GroupRepliesRaise(text: string, groups: seq<GroupInfo>)
    ensures GroupReplies(text, groups).1 <==>
      exists k :: 0 <= k < |groups| && Contains(text, "@" + groups[k].name) && groups[k].usernames.None?
    decreases |groups|
  {
    if groups != [] {
      var init := groups[..|groups| - 1];
      GroupRepliesRaise(text, init);
      assert forall k :: 0 <= k < |init| ==> init[k] == groups[k];
    }
  }

  /** Without "@all", the group loop raises exactly when a mentioned group's lookup fails;
      otherwise it answers once per mentioned group, in the order of the groups. */
  lemma {:induction false} GroupMentionRule(text: string, groups: seq<GroupInfo>)
    ensures GroupReplies(text, groups).1 <==>
      exists k :: 0 <= k < |groups| && Contains(text, "@" + groups[k].name) && groups[k].usernames.None?
    ensures !GroupReplies(text, groups).1 ==>
      GroupReplies(text, groups).0 == Present(seq(|groups|, k requires 0 <= k < |groups| => GroupReplyOf(text, groups[k])))
    decreases |groups|
  {
    GroupRepliesRaise(text, groups);
    if groups != [] && !GroupReplies(text, groups).1 {
      var init := groups[..|groups| - 1];
      GroupMentionRule(text, init);
      var xs := seq(|groups|, k requires 0 <= k < |groups| => GroupReplyOf(text, groups[k]));
      assert xs[..|xs| - 1] == seq(|init|, k requires 0 <= k < |init| => GroupReplyOf(text, init[k]));
      assert !GroupReplies(text, init).1;
    }
  }

  /** With store answers that return (the other store calls are plain values of `Env`),
      the whole handler raises exactly when the download of a found link raises, or,
      when neither a download raise nor `/create me` in an unregistered chat ended it
      first, the text has no "@all" and the lookup of a group mentioned as "@name" fails. */
  lemma HandlerRaises(msg: Message, env: Env)
    ensures Handled(msg, env).1 <==>
      (!msg.edited &&
       ((env.link.Some? && LinkKind(env.link.value).Some? && MediaOf(env, LinkKind(env.link.value).value).Raises?) ||
        (!(CommandOf(msg.text) == CreateMe && !env.chatRegistered) &&
         !Contains(msg.text, "@all") &&
         exists k :: 0 <= k < |env.groups| && Contains(msg.text, "@" + env.groups[k].name) && env.groups[k].usernames.None?)))
  {
    GroupRepliesRaise(msg.text, env.groups);
    if exists k :: 0 <= k < |env.groups| && Contains(msg.text, "@" + env.groups[k].name) && env.groups[k].usernames.None? {
      var k :| 0 <= k < |env.groups| && Contains(msg.text, "@" + env.groups[k].name) && env.groups[k].usernames.None?;
      ContainsPrefix(msg.text, "@", env.groups[k].name);
    }
  }
}
