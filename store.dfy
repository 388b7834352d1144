/** The PostgreSQL group/membership store, as five in-memory relations.

    Every operation is first defined on a `Tables` value (with the outcome it reports),
    and the `DataBase` class applies it to its own fields. A `fail` parameter stands for
    the driver raising inside a `try` (the blanket `except Exception`): the transaction
    is rolled back, so the tables are unchanged and the fixed error outcome is reported. */
module Store {
  import opened Wrappers
  import opened PyStr
  import opened Sorting
  import opened IntSets
  import opened GroupCommands

  datatype UserRow = UserRow(firstName: string, username: Option<string>)
  datatype ChatRow = ChatRow(title: string, chatType: string)
  datatype GroupRow = GroupRow(name: string, chat: int)

  /** users, group_chats, user_group_chats (user, chat), groups, user_groups (user, group),
      and the next value of the `groups.id` serial. */
  datatype Tables = Tables(
    users: map<int, UserRow>,
    chats: map<int, ChatRow>,
    userChats: set<(int, int)>,
    groups: map<int, GroupRow>,
    userGroups: set<(int, int)>,
    nextGroupId: int)

  /** The schema's keys and constraints: every link points at existing rows (the foreign
      keys), `UNIQUE(group_chat_id, name)`, and the serial is ahead of every group id. */
  ghost predicate ValidTables(t: Tables) {
    && (forall p :: p in t.userChats ==> p.0 in t.users && p.1 in t.chats)
    && (forall g :: g in t.groups ==> t.groups[g].chat in t.chats && g < t.nextGroupId)
    && (forall p :: p in t.userGroups ==> p.0 in t.users && p.1 in t.groups)
    && (forall g1, g2 :: g1 in t.groups && g2 in t.groups && t.groups[g1] == t.groups[g2] ==> g1 == g2)
  }

  const EmptyTables := Tables(map[], map[], {}, map[], {}, 1)

  /** The same tables apart from `user_groups`. */
  predicate SameButMembership(a: Tables, b: Tables) {
    a.users == b.users && a.chats == b.chats && a.userChats == b.userChats &&
    a.groups == b.groups && a.nextGroupId == b.nextGroupId
  }

  // ---------------------------------------------------------------- lookups

  /** `SELECT id FROM users WHERE username = %s`, first row; without ORDER BY the row is
      unspecified, and the model takes the least id. */
  function UserByName(users: map<int, UserRow>, name: string): (r: Option<int>)
    ensures r.Some? ==> r.value in users && users[r.value].username == Some(name)
    ensures r.None? <==> forall id :: id in users ==> users[id].username != Some(name)
  {
    if forall id :: id in users ==> users[id].username != Some(name) then None
    else
      var ids := set id | id in users && users[id].username == Some(name);
      assert ids != {} by {
        var id0 :| id0 in users && users[id0].username == Some(name);
        assert id0 in ids;
      }
      Some(MinOf(ids))
  }

  /** `SELECT id FROM groups WHERE name = %s AND group_chat_id = %s`, first row. */
  function GroupByName(t: Tables, chat: int, name: string): (r: Option<int>)
    ensures r.Some? ==> r.value in t.groups && t.groups[r.value] == GroupRow(name, chat)
    ensures r.None? <==> forall g :: g in t.groups ==> t.groups[g] != GroupRow(name, chat)
  {
    if forall g :: g in t.groups ==> t.groups[g] != GroupRow(name, chat) then None
    else
      var ids := set g | g in t.groups && t.groups[g] == GroupRow(name, chat);
      assert ids != {} by {
        var g0 :| g0 in t.groups && t.groups[g0] == GroupRow(name, chat);
        assert g0 in ids;
      }
      Some(MinOf(ids))
  }

  /** Under `UNIQUE(group_chat_id, name)` the lookup finds the one group so named. */
  lemma GroupByNameUnique(t: Tables, chat: int, name: string, g: int)
    requires ValidTables(t) && g in t.groups && t.groups[g] == GroupRow(name, chat)
    ensures GroupByName(t, chat, name) == Some(g)
  {
  }

  // ---------------------------------------------------------------- simple writes

  /** `create_user`: `INSERT ... ON CONFLICT (id) DO NOTHING` with the sanitised username;
      the result is `rowcount > 0`. */
  function CreateUserOp(t: Tables, id: int, firstName: string, username: Option<string>, fail: bool): (r: (bool, Tables))
    ensures r.0 <==> !fail && id !in t.users
    ensures forall u :: u in t.users ==> u in r.1.users && r.1.users[u] == t.users[u]
    ensures r.0 ==> r.1 == t.(users := t.users[id := UserRow(firstName, SanitizeUsername(username))])
    ensures !r.0 ==> r.1 == t
  {
    if fail || id in t.users then (false, t)
    else (true, t.(users := t.users[id := UserRow(firstName, SanitizeUsername(username))]))
  }

  /** `add_group_chat_to_user`: `INSERT ... ON CONFLICT DO NOTHING` into the link table.
      A missing user or chat violates a foreign key, which raises and is caught. */
  function AddGroupChatOp(t: Tables, user: int, chat: int, fail: bool): (r: (bool, Tables))
    ensures r.0 <==> !fail && user in t.users && chat in t.chats && (user, chat) !in t.userChats
    ensures r.1 == t.(userChats := r.1.userChats)
    ensures r.1.userChats == t.userChats + (if r.0 then {(user, chat)} else {})
  {
    if fail || user !in t.users || chat !in t.chats || (user, chat) in t.userChats then (false, t)
    else (true, t.(userChats := t.userChats + {(user, chat)}))
  }

  /** `create_group_chat`: an upsert, so one row is always affected. */
  function CreateGroupChatOp(t: Tables, chat: int, title: string, chatType: string, fail: bool): (r: (bool, Tables))
    ensures r.0 <==> !fail
    ensures r.0 ==> chat in r.1.chats && r.1.chats[chat] == ChatRow(title, chatType)
    ensures forall c :: c in t.chats && c != chat ==> c in r.1.chats && r.1.chats[c] == t.chats[c]
    ensures r.1.chats.Keys == t.chats.Keys + (if r.0 then {chat} else {})
    ensures r.1 == t.(chats := r.1.chats)
  {
    if fail then (false, t)
    else (true, t.(chats := t.chats[chat := ChatRow(title, chatType)]))
  }

  /** `update_user`: `UPDATE users ... WHERE id = %s`, true when that row existed. */
  function UpdateUserOp(t: Tables, id: int, firstName: string, username: Option<string>, fail: bool): (r: (bool, Tables))
    ensures r.0 <==> !fail && id in t.users
    ensures r.1.users.Keys == t.users.Keys
    ensures r.0 ==> id in r.1.users && r.1.users[id] == UserRow(firstName, SanitizeUsername(username))
    ensures forall u :: u in t.users && u != id ==> r.1.users[u] == t.users[u]
    ensures r.1 == t.(users := r.1.users)
  {
    if fail || id !in t.users then (false, t)
    else (true, t.(users := t.users[id := UserRow(firstName, SanitizeUsername(username))]))
  }

  // ---------------------------------------------------------------- membership loops

  /** What one listed username produced. */
  datatype Outcome = NotFound | Added | AlreadyIn | Deleted | NotIn

  /** The reply line for one listed username. */
  function Line(username: string, o: Outcome): string {
    "\nUser @" + username +
      match o
      case NotFound => " was not found"
      case Added => " has been added"
      case AlreadyIn => " is already in group"
      case Deleted => " has been deleted"
      case NotIn => " was not in group"
  }

  /** The lines for all listed usernames, one each, in order. */
  function Lines(usernames: seq<string>, outcomes: seq<Outcome>): string
    requires |usernames| == |outcomes|
  {
    if usernames == [] then ""
    else
      var n := |usernames| - 1;
      Lines(usernames[..n], outcomes[..n]) + Line(usernames[n], outcomes[n])
  }

  /** One iteration of the loop in `create_group` / `add_users_to_group`. */
  function AddStep(t: Tables, group: int, username: string): (Outcome, Tables) {
    match UserByName(t.users, username)
    case None => (NotFound, t)
    case Some(user) =>
      if (user, group) in t.userGroups then (AlreadyIn, t)
      else (Added, t.(userGroups := t.userGroups + {(user, group)}))
  }

  /** The whole loop: the outcome for each username and the tables afterwards. */
  function AddAll(t: Tables, group: int, usernames: seq<string>): (r: (seq<Outcome>, Tables))
    ensures |r.0| == |usernames|
    ensures SameButMembership(r.1, t)
    ensures t.userGroups <= r.1.userGroups
    ensures forall p :: p in r.1.userGroups - t.userGroups ==>
      p.1 == group && exists i :: 0 <= i < |usernames| && UserByName(t.users, usernames[i]) == Some(p.0)
  {
    if usernames == [] then ([], t)
    else
      var n := |usernames| - 1;
      var (os, t1) := AddAll(t, group, usernames[..n]);
      var (o, t2) := AddStep(t1, group, usernames[n]);
      (os + [o], t2)
  }

  /** One iteration of the loop in `delete_users_from_group`. */
  function RemoveStep(t: Tables, group: int, username: string): (Outcome, Tables) {
    match UserByName(t.users, username)
    case None => (NotFound, t)
    case Some(user) =>
      if (user, group) in t.userGroups then (Deleted, t.(userGroups := t.userGroups - {(user, group)}))
      else (NotIn, t)
  }

  function RemoveAllMembers(t: Tables, group: int, usernames: seq<string>): (r: (seq<Outcome>, Tables))
    ensures |r.0| == |usernames|
    ensures SameButMembership(r.1, t)
    ensures r.1.userGroups <= t.userGroups
    ensures forall p :: p in t.userGroups - r.1.userGroups ==>
      p.1 == group && exists i :: 0 <= i < |usernames| && UserByName(t.users, usernames[i]) == Some(p.0)
  {
    if usernames == [] then ([], t)
    else
      var n := |usernames| - 1;
      var (os, t1) := RemoveAllMembers(t, group, usernames[..n]);
      var (o, t2) := RemoveStep(t1, group, usernames[n]);
      (os + [o], t2)
  }

  /** Each listed username is reported according to the users table: "was not found"
      exactly for the names no user has, and otherwise "has been added" or "is already in
      group"; afterwards every found user is a member. */
  lemma {:induction false} AddAllOutcomes(t: Tables, group: int, usernames: seq<string>, i: int)
    requires 0 <= i < |usernames|
    ensures AddAll(t, group, usernames).0[i] in {NotFound, Added, AlreadyIn}
    ensures AddAll(t, group, usernames).0[i] == NotFound <==> UserByName(t.users, usernames[i]).None?
    ensures UserByName(t.users, usernames[i]).Some? ==>
      (UserByName(t.users, usernames[i]).value, group) in AddAll(t, group, usernames).1.userGroups
    decreases |usernames|
  {
    var n := |usernames| - 1;
    var (os, t1) := AddAll(t, group, usernames[..n]);
    if i < n {
      AddAllOutcomes(t, group, usernames[..n], i);
      assert usernames[..n][i] == usernames[i];
    }
  }

  /** Removal reports "was not found" exactly for unknown names, and afterwards no found
      user is a member of the group. */
  lemma {:induction false} RemoveAllOutcomes(t: Tables, group: int, usernames: seq<string>, i: int)
    requires 0 <= i < |usernames|
    ensures RemoveAllMembers(t, group, usernames).0[i] in {NotFound, Deleted, NotIn}
    ensures RemoveAllMembers(t, group, usernames).0[i] == NotFound <==> UserByName(t.users, usernames[i]).None?
    ensures UserByName(t.users, usernames[i]).Some? ==>
      (UserByName(t.users, usernames[i]).value, group) !in RemoveAllMembers(t, group, usernames).1.userGroups
    decreases |usernames|
  {
    var n := |usernames| - 1;
    var (os, t1) := RemoveAllMembers(t, group, usernames[..n]);
    if i < n {
      RemoveAllOutcomes(t, group, usernames[..n], i);
      assert usernames[..n][i] == usernames[i];
    }
  }

  /** Adding members to an existing group keeps every constraint. */
  lemma {:induction false} AddAllValid(t: Tables, group: int, usernames: seq<string>)
    requires ValidTables(t) && group in t.groups
    ensures ValidTables(AddAll(t, group, usernames).1)
    decreases |usernames|
  {
    if usernames != [] {
      AddAllValid(t, group, usernames[..|usernames| - 1]);
    }
  }

  /** Removing members keeps every constraint. */
  lemma {:induction false} RemoveAllValid(t: Tables, group: int, usernames: seq<string>)
    requires ValidTables(t)
    ensures ValidTables(RemoveAllMembers(t, group, usernames).1)
    decreases |usernames|
  {
    if usernames != [] {
      RemoveAllValid(t, group, usernames[..|usernames| - 1]);
    }
  }

  /** A non-empty list of lines never strips to nothing: each line holds "User". */
  lemma LinesStripNonEmpty(usernames: seq<string>, outcomes: seq<Outcome>)
    requires |usernames| == |outcomes| && usernames != []
    ensures Strip(Lines(usernames, outcomes)) != ""
  {
    var n := |usernames| - 1;
    var s := Lines(usernames, outcomes);
    var pre := Lines(usernames[..n], outcomes[..n]);
    assert s == pre + Line(usernames[n], outcomes[n]);
    assert s[|pre| + 1] == 'U';
    assert !IsSpace(s[|pre| + 1]);
  }

  // ---------------------------------------------------------------- group commands

  const CreateFormatError := "Неверный формат. Используйте /create group name:{name} users:{username}"
  const CreateFailed := "Не удалось создать группу"
  const AddFormatError := "Неверный формат. Используйте /add to group name:{name} users:{username}"
  const AddFailed := "Не удалось добавить пользователей"
  const DeleteUsersFormatError := "Неверный формат. Используйте /delete users group name:{name} users:{username}"
  const DeleteUsersFailed := "Не удалось удалить пользователей"
  const NoUsersProvided := "No users were provided"

  /** `create_group`: parse, insert the group unless (chat, name) exists, then add each
      listed user; the whole write is one transaction. A parse that raises escapes. */
  function CreateGroupOp(t: Tables, command: string, chat: int, fail: bool): (r: (Py<string>, Tables))
    ensures r.0.Raises? ==> r.1 == t
    ensures ExtractGroupCommand(command, "/create group") == Value(None) ==> r == (Value(CreateFormatError), t)
    ensures fail && ExtractGroupCommand(command, "/create group").Value? && ExtractGroupCommand(command, "/create group").value.Some? ==>
      r == (Value(CreateFailed), t)
  {
    match ExtractGroupCommand(command, "/create group")
    case Raises(e) => (Raises(e), t)
    case Value(None) => (Value(CreateFormatError), t)
    case Value(Some(cmd)) =>
      if fail then (Value(CreateFailed), t)
      else
        var (reply, t2) := CreateParsedGroup(t, cmd, chat);
        (Value(reply), t2)
  }

  /** The transaction of `create_group` for a parsed command. */
  function CreateParsedGroup(t: Tables, cmd: GroupCommand, chat: int): (string, Tables) {
    match GroupByName(t, chat, cmd.name)
    case Some(group) =>
      var (os, t2) := AddAll(t, group, cmd.users);
      ("Group @" + cmd.name + " already exists" + Lines(cmd.users, os), t2)
    case None =>
      if chat !in t.chats then (CreateFailed, t)
      else
        var (os, t2) := AddAll(InsertGroup(t, cmd.name, chat), t.nextGroupId, cmd.users);
        ("Group @" + cmd.name + " has been created" + Lines(cmd.users, os), t2)
  }

  /** `INSERT INTO groups(name, group_chat_id)` with the next serial value. */
  function InsertGroup(t: Tables, name: string, chat: int): Tables {
    t.(groups := t.groups[t.nextGroupId := GroupRow(name, chat)], nextGroupId := t.nextGroupId + 1)
  }

  /** Inserting a name not yet used in a registered chat keeps every constraint. */
  lemma InsertGroupValid(t: Tables, name: string, chat: int)
    requires ValidTables(t) && chat in t.chats
    requires forall g :: g in t.groups ==> t.groups[g] != GroupRow(name, chat)
    ensures ValidTables(InsertGroup(t, name, chat))
    ensures t.nextGroupId !in t.groups
  {
  }

  /** `create_group` keeps every constraint, in particular `UNIQUE(group_chat_id, name)`. */
  lemma CreateGroupValid(t: Tables, command: string, chat: int, fail: bool)
    requires ValidTables(t)
    ensures ValidTables(CreateGroupOp(t, command, chat, fail).1)
  {
    match ExtractGroupCommand(command, "/create group")
    case Raises(e) =>
    case Value(None) =>
    case Value(Some(cmd)) =>
      if !fail {
        match GroupByName(t, chat, cmd.name)
        case Some(group) =>
          AddAllValid(t, group, cmd.users);
        case None =>
          if chat in t.chats {
            var t1 := InsertGroup(t, cmd.name, chat);
            InsertGroupValid(t, cmd.name, chat);
            AddAllValid(t1, t.nextGroupId, cmd.users);
          }
      }
  }

  /** A name already taken in the chat creates no group: the reply says "already exists"
      and only memberships of that group may be added. */
  lemma CreateGroupRepeated(t: Tables, command: string, chat: int, cmd: GroupCommand)
    requires ValidTables(t)
    requires ExtractGroupCommand(command, "/create group") == Value(Some(cmd))
    requires exists g :: g in t.groups && t.groups[g] == GroupRow(cmd.name, chat)
    ensures CreateGroupOp(t, command, chat, false).1.groups == t.groups
    ensures CreateGroupOp(t, command, chat, false).0.Value? &&
      StartsWith(CreateGroupOp(t, command, chat, false).0.value, "Group @" + cmd.name + " already exists")
    ensures GroupByName(t, chat, cmd.name).Some? &&
      CreateGroupOp(t, command, chat, false).0 == Value("Group @" + cmd.name + " already exists" +
        Lines(cmd.users, AddAll(t, GroupByName(t, chat, cmd.name).value, cmd.users).0))
    ensures CreateGroupOp(t, command, chat, false).1 == AddAll(t, GroupByName(t, chat, cmd.name).value, cmd.users).1
    ensures var t2 := CreateGroupOp(t, command, chat, false).1;
      t2.users == t.users && t2.chats == t.chats && t2.userChats == t.userChats && t2.nextGroupId == t.nextGroupId
    ensures forall i :: 0 <= i < |cmd.users| && UserByName(t.users, cmd.users[i]).Some? ==>
      (UserByName(t.users, cmd.users[i]).value, GroupByName(t, chat, cmd.name).value) in
        CreateGroupOp(t, command, chat, false).1.userGroups
  {
    var g :| g in t.groups && t.groups[g] == GroupRow(cmd.name, chat);
    GroupByNameUnique(t, chat, cmd.name, g);
    var (os, t2) := AddAll(t, g, cmd.users);
    forall i | 0 <= i < |cmd.users| && UserByName(t.users, cmd.users[i]).Some?
      ensures (UserByName(t.users, cmd.users[i]).value, g) in t2.userGroups
    {
      AddAllOutcomes(t, g, cmd.users, i);
    }
    var head := "Group @" + cmd.name + " already exists";
    assert (head + Lines(cmd.users, os))[..|head|] == head;
  }

  /** A new name in a registered chat creates exactly one group, with a fresh id. */
  lemma CreateGroupNew(t: Tables, command: string, chat: int, cmd: GroupCommand)
    requires ValidTables(t) && chat in t.chats
    requires ExtractGroupCommand(command, "/create group") == Value(Some(cmd))
    requires forall g :: g in t.groups ==> t.groups[g] != GroupRow(cmd.name, chat)
    ensures t.nextGroupId !in t.groups
    ensures CreateGroupOp(t, command, chat, false).1.groups == t.groups[t.nextGroupId := GroupRow(cmd.name, chat)]
    ensures CreateGroupOp(t, command, chat, false).0 == Value("Group @" + cmd.name + " has been created" +
      Lines(cmd.users, AddAll(InsertGroup(t, cmd.name, chat), t.nextGroupId, cmd.users).0))
    ensures CreateGroupOp(t, command, chat, false).1 == AddAll(InsertGroup(t, cmd.name, chat), t.nextGroupId, cmd.users).1
    ensures var t2 := CreateGroupOp(t, command, chat, false).1;
      t2.users == t.users && t2.chats == t.chats && t2.userChats == t.userChats && t2.nextGroupId == t.nextGroupId + 1
    ensures forall i :: 0 <= i < |cmd.users| && UserByName(t.users, cmd.users[i]).Some? ==>
      (UserByName(t.users, cmd.users[i]).value, t.nextGroupId) in CreateGroupOp(t, command, chat, false).1.userGroups
  {
    assert GroupByName(t, chat, cmd.name).None?;
    var t1 := InsertGroup(t, cmd.name, chat);
    var r := AddAll(t1, t.nextGroupId, cmd.users);
    assert CreateParsedGroup(t, cmd, chat) == ("Group @" + cmd.name + " has been created" + Lines(cmd.users, r.0), r.1);
    forall i | 0 <= i < |cmd.users| && UserByName(t.users, cmd.users[i]).Some?
      ensures (UserByName(t.users, cmd.users[i]).value, t.nextGroupId) in r.1.userGroups
    {
      assert t1.users == t.users;
      AddAllOutcomes(t1, t.nextGroupId, cmd.users, i);
    }
  }

  /** In an unregistered chat the foreign key on `groups.group_chat_id` rejects the insert. */
  lemma CreateGroupUnregisteredChat(t: Tables, command: string, chat: int, cmd: GroupCommand)
    requires ValidTables(t) && chat !in t.chats
    requires ExtractGroupCommand(command, "/create group") == Value(Some(cmd))
    ensures CreateGroupOp(t, command, chat, false) == (Value(CreateFailed), t)
  {
    assert GroupByName(t, chat, cmd.name).None?;
    assert CreateParsedGroup(t, cmd, chat) == (CreateFailed, t);
  }

  /** `delete_group`: find the group by name in the chat and delete it; the cascade on
      `user_groups.group_id` removes its memberships. */
  function DeleteGroupOp(t: Tables, command: string, chat: int, fail: bool): (r: (bool, Tables))
    ensures !r.0 ==> r.1 == t
    ensures r.0 <==> (!fail && ExtractGroupName(command, "/delete group").Some? &&
                      GroupByName(t, chat, ExtractGroupName(command, "/delete group").value).Some?)
  {
    match ExtractGroupName(command, "/delete group")
    case None => (false, t)
    case Some(name) =>
      if fail then (false, t)
      else
        match GroupByName(t, chat, name)
        case None => (false, t)
        case Some(group) =>
          (true, t.(groups := t.groups - {group},
                    userGroups := set p | p in t.userGroups && p.1 != group))
  }

  /** After a successful delete that group and all its memberships are gone, and nothing
      else changed. */
  lemma DeleteGroupEffect(t: Tables, command: string, chat: int)
    requires DeleteGroupOp(t, command, chat, false).0
    ensures var name := ExtractGroupName(command, "/delete group").value;
      var group := GroupByName(t, chat, name).value;
      var t2 := DeleteGroupOp(t, command, chat, false).1;
      && group !in t2.groups
      && (forall g :: g in t.groups && g != group ==> g in t2.groups && t2.groups[g] == t.groups[g])
      && (forall p :: p in t2.userGroups <==> p in t.userGroups && p.1 != group)
      && t2.groups.Keys == t.groups.Keys - {group}
      && t2.users == t.users && t2.chats == t.chats && t2.userChats == t.userChats
      && t2.nextGroupId == t.nextGroupId
  {
    var name := ExtractGroupName(command, "/delete group").value;
    var group := GroupByName(t, chat, name).value;
    assert DeleteGroupOp(t, command, chat, false).1 ==
      t.(groups := t.groups - {group}, userGroups := set p | p in t.userGroups && p.1 != group);
  }

  lemma DeleteGroupValid(t: Tables, command: string, chat: int, fail: bool)
    requires ValidTables(t)
    ensures ValidTables(DeleteGroupOp(t, command, chat, fail).1)
  {
  }

  /** Shared tail of `add_users_to_group` and `delete_users_from_group`. */
  function Report(lines: string): (r: string)
    ensures r != ""
  {
    var s := Strip(lines);
    if s == "" then NoUsersProvided else s
  }

  /** A (user, group) pair that a parsed command names: the group of that name in the
      chat, and a user found by one of the listed usernames. */
  predicate NamedPair(t: Tables, chat: int, parsed: Py<Option<GroupCommand>>, p: (int, int)) {
    && parsed.Value? && parsed.value.Some?
    && GroupByName(t, chat, parsed.value.value.name) == Some(p.1)
    && exists i :: 0 <= i < |parsed.value.value.users| && UserByName(t.users, parsed.value.value.users[i]) == Some(p.0)
  }

  /** `add_users_to_group`: the group must exist; it is never created here. */
  function AddUsersOp(t: Tables, command: string, chat: int, fail: bool): (r: (Py<string>, Tables))
    ensures SameButMembership(r.1, t) && t.userGroups <= r.1.userGroups
    ensures ExtractGroupCommand(command, "/add to group").Raises? ==> r.1 == t
    ensures ExtractGroupCommand(command, "/add to group") == Value(None) ==> r == (Value(AddFormatError), t)
    ensures fail && ExtractGroupCommand(command, "/add to group").Value? && ExtractGroupCommand(command, "/add to group").value.Some? ==>
      r == (Value(AddFailed), t)
  {
    match ExtractGroupCommand(command, "/add to group")
    case Raises(e) => (Raises(e), t)
    case Value(None) => (Value(AddFormatError), t)
    case Value(Some(cmd)) =>
      if fail then (Value(AddFailed), t)
      else
        match GroupByName(t, chat, cmd.name)
        case None => (Value("Group @" + cmd.name + " was not found"), t)
        case Some(group) =>
          var (os, t2) := AddAll(t, group, cmd.users);
          (Value(Report(Lines(cmd.users, os))), t2)
  }

  /** `delete_users_from_group`. */
  function DeleteUsersOp(t: Tables, command: string, chat: int, fail: bool): (r: (Py<string>, Tables))
    ensures SameButMembership(r.1, t) && r.1.userGroups <= t.userGroups
    ensures ExtractGroupCommand(command, "/delete users group").Raises? ==> r.1 == t
    ensures ExtractGroupCommand(command, "/delete users group") == Value(None) ==> r == (Value(DeleteUsersFormatError), t)
    ensures fail && ExtractGroupCommand(command, "/delete users group").Value? && ExtractGroupCommand(command, "/delete users group").value.Some? ==>
      r == (Value(DeleteUsersFailed), t)
  {
    match ExtractGroupCommand(command, "/delete users group")
    case Raises(e) => (Raises(e), t)
    case Value(None) => (Value(DeleteUsersFormatError), t)
    case Value(Some(cmd)) =>
      if fail then (Value(DeleteUsersFailed), t)
      else
        match GroupByName(t, chat, cmd.name)
        case None => (Value("Group @" + cmd.name + " was not found"), t)
        case Some(group) =>
          var (os, t2) := RemoveAllMembers(t, group, cmd.users);
          (Value(Report(Lines(cmd.users, os))), t2)
  }

  /** On an existing group, the result is that of adding every listed user: the reply
      reports one line per username, and is "No users were provided" exactly when the
      command lists no users; every found user becomes a member, and only memberships of
      that group that the command names are added. */
  lemma AddUsersReply(t: Tables, command: string, chat: int, cmd: GroupCommand, group: int)
    requires ExtractGroupCommand(command, "/add to group") == Value(Some(cmd))
    requires GroupByName(t, chat, cmd.name) == Some(group)
    ensures AddUsersOp(t, command, chat, false).0 == Value(NoUsersProvided) <==> cmd.users == []
    ensures forall p :: p in AddUsersOp(t, command, chat, false).1.userGroups - t.userGroups ==>
      p.1 == group && exists i :: 0 <= i < |cmd.users| && UserByName(t.users, cmd.users[i]) == Some(p.0)
    ensures AddUsersOp(t, command, chat, false) ==
      (Value(Report(Lines(cmd.users, AddAll(t, group, cmd.users).0))), AddAll(t, group, cmd.users).1)
    ensures forall i :: 0 <= i < |cmd.users| && UserByName(t.users, cmd.users[i]).Some? ==>
      (UserByName(t.users, cmd.users[i]).value, group) in AddUsersOp(t, command, chat, false).1.userGroups
  {
    var (os, t2) := AddAll(t, group, cmd.users);
    forall i | 0 <= i < |cmd.users| && UserByName(t.users, cmd.users[i]).Some?
      ensures (UserByName(t.users, cmd.users[i]).value, group) in t2.userGroups
    {
      AddAllOutcomes(t, group, cmd.users, i);
    }
    if cmd.users != [] {
      LinesHead(cmd.users, os);
      StripLeadingNewline(Lines(cmd.users, os));
    }
  }

  /** The mirror for removal: the result is that of removing every listed user, and no
      found user is a member afterwards. */
  lemma DeleteUsersReply(t: Tables, command: string, chat: int, cmd: GroupCommand, group: int)
    requires ExtractGroupCommand(command, "/delete users group") == Value(Some(cmd))
    requires GroupByName(t, chat, cmd.name) == Some(group)
    ensures DeleteUsersOp(t, command, chat, false).0 == Value(NoUsersProvided) <==> cmd.users == []
    ensures forall p :: p in t.userGroups - DeleteUsersOp(t, command, chat, false).1.userGroups ==>
      p.1 == group && exists i :: 0 <= i < |cmd.users| && UserByName(t.users, cmd.users[i]) == Some(p.0)
    ensures DeleteUsersOp(t, command, chat, false) ==
      (Value(Report(Lines(cmd.users, RemoveAllMembers(t, group, cmd.users).0))), RemoveAllMembers(t, group, cmd.users).1)
    ensures forall i :: 0 <= i < |cmd.users| && UserByName(t.users, cmd.users[i]).Some? ==>
      (UserByName(t.users, cmd.users[i]).value, group) !in DeleteUsersOp(t, command, chat, false).1.userGroups
  {
    var (os, t2) := RemoveAllMembers(t, group, cmd.users);
    forall i | 0 <= i < |cmd.users| && UserByName(t.users, cmd.users[i]).Some?
      ensures (UserByName(t.users, cmd.users[i]).value, group) !in t2.userGroups
    {
      RemoveAllOutcomes(t, group, cmd.users, i);
    }
    if cmd.users != [] {
      LinesHead(cmd.users, os);
      StripLeadingNewline(Lines(cmd.users, os));
    }
  }

  /** Whatever the command, `add_users_to_group` adds only pairs the command names. */
  lemma AddUsersNamedPairs(t: Tables, command: string, chat: int, fail: bool)
    ensures forall p :: p in AddUsersOp(t, command, chat, fail).1.userGroups - t.userGroups ==>
      NamedPair(t, chat, ExtractGroupCommand(command, "/add to group"), p)
  {
    var parsed := ExtractGroupCommand(command, "/add to group");
    if parsed.Value? && parsed.value.Some? && !fail && GroupByName(t, chat, parsed.value.value.name).Some? {
      AddUsersReply(t, command, chat, parsed.value.value, GroupByName(t, chat, parsed.value.value.name).value);
    }
  }

  /** Whatever the command, `delete_users_from_group` removes only pairs the command names. */
  lemma DeleteUsersNamedPairs(t: Tables, command: string, chat: int, fail: bool)
    ensures forall p :: p in t.userGroups - DeleteUsersOp(t, command, chat, fail).1.userGroups ==>
      NamedPair(t, chat, ExtractGroupCommand(command, "/delete users group"), p)
  {
    var parsed := ExtractGroupCommand(command, "/delete users group");
    if parsed.Value? && parsed.value.Some? && !fail && GroupByName(t, chat, parsed.value.value.name).Some? {
      DeleteUsersReply(t, command, chat, parsed.value.value, GroupByName(t, chat, parsed.value.value.name).value);
    }
  }

  /** A missing group is reported, and nothing is written. */
  lemma MissingGroupReported(t: Tables, command: string, chat: int, cmd: GroupCommand)
    requires ExtractGroupCommand(command, "/add to group") == Value(Some(cmd))
    requires forall g :: g in t.groups ==> t.groups[g] != GroupRow(cmd.name, chat)
    ensures AddUsersOp(t, command, chat, false) == (Value("Group @" + cmd.name + " was not found"), t)
  {
  }

  /** The same for "/delete users group": a missing group is reported, and nothing is
      removed. */
  lemma MissingGroupReportedOnDelete(t: Tables, command: string, chat: int, cmd: GroupCommand)
    requires ExtractGroupCommand(command, "/delete users group") == Value(Some(cmd))
    requires forall g :: g in t.groups ==> t.groups[g] != GroupRow(cmd.name, chat)
    ensures DeleteUsersOp(t, command, chat, false) == (Value("Group @" + cmd.name + " was not found"), t)
  {
  }

  /** Every non-empty list of lines starts with "\nUser @". */
  lemma {:induction false} LinesHead(usernames: seq<string>, outcomes: seq<Outcome>)
    requires |usernames| == |outcomes| && usernames != []
    ensures StartsWith(Lines(usernames, outcomes), "\nUser @")
    decreases |usernames|
  {
    var n := |usernames| - 1;
    var pre := Lines(usernames[..n], outcomes[..n]);
    var s := Lines(usernames, outcomes);
    assert s == pre + Line(usernames[n], outcomes[n]);
    if n == 0 {
      assert pre == "";
      assert s == Line(usernames[0], outcomes[0]);
    } else {
      LinesHead(usernames[..n], outcomes[..n]);
      assert s[..7] == pre[..7];
    }
  }

  /** Stripping a text that starts with "\nUser @" starts it at the 'U'. */
  lemma StripLeadingNewline(s: string)
    requires StartsWith(s, "\nUser @")
    ensures Strip(s) != "" && Strip(s)[0] == 'U'
  {
    assert s[0] == '\n' && s[1] == 'U';
    assert LStrip(s[1..]) == s[1..];
    assert LStrip(s) == s[1..];
    RStripIsPrefix(s[1..]);
    assert Strip(s) == RStrip(s[1..]);
    assert RStrip(s[1..]) != [] by {
      assert !IsSpace(s[1..][0]);
    }
  }

  // ---------------------------------------------------------------- queries

  const SomethingWentWrong := "Something went wrong"
  const NoUsersFound := "Не нашёл пользователей"

  /** Ids of the users linked to a chat (the JOIN keeps only existing users), ascending. */
  function ChatMemberIds(t: Tables, chat: int): (r: seq<int>)
    ensures forall i :: 0 <= i < |r| ==> r[i] in t.users
    ensures forall u :: u in r <==> u in t.users && (u, chat) in t.userChats
  {
    var r := Ascending(set u | u in t.users && (u, chat) in t.userChats);
    assert forall i :: 0 <= i < |r| ==> r[i] in t.users by {
      forall i | 0 <= i < |r| ensures r[i] in t.users { assert r[i] in r; }
    }
    r
  }

  /** Ids of the members of a group, ascending. */
  function GroupMemberIds(t: Tables, group: int): (r: seq<int>)
    ensures forall i :: 0 <= i < |r| ==> r[i] in t.users
    ensures forall u :: u in r <==> u in t.users && (u, group) in t.userGroups
  {
    var r := Ascending(set u | u in t.users && (u, group) in t.userGroups);
    assert forall i :: 0 <= i < |r| ==> r[i] in t.users by {
      forall i | 0 <= i < |r| ensures r[i] in t.users { assert r[i] in r; }
    }
    r
  }

  /** The `username` column of the given rows, NULL as None. */
  function UsernameColumn(t: Tables, ids: seq<int>): (r: seq<Option<string>>)
    requires forall i :: 0 <= i < |ids| ==> ids[i] in t.users
    ensures |r| == |ids| && forall i :: 0 <= i < |ids| ==> r[i] == t.users[ids[i]].username
  {
    seq(|ids|, i requires 0 <= i < |ids| => t.users[ids[i]].username)
  }

  /** The rows of `get_all_usernames` / `get_usernames_by_group` turned into text:
      `"@" + None` raises TypeError; ORDER BY username sorts the names. */
  function MentionRows(column: seq<Option<string>>, none: string): (r: Py<string>)
    requires none != [] && none[0] != '@'
    ensures r.Raises? <==> exists i :: 0 <= i < |column| && column[i].None?
    ensures r == Value(none) ==> column == []
    ensures column == [] ==> r == Value(none)
    ensures r.Value? && column != [] ==> exists names ::
      Sorted(names) && multiset(names) == multiset(Present(column)) && |names| == |column| &&
      r.value == Mentions(names)
  {
    if exists i :: 0 <= i < |column| && column[i].None? then Raises(TypeError)
    else if column == [] then Value(none)
    else
      var names := Sort(Present(column));
      AllPresentLength(column);
      assert |names| == |multiset(names)| == |multiset(Present(column))| == |Present(column)|;
      assert Mentions(names) != none by {
        MentionsStart(names);
      }
      Value(Mentions(names))
  }

  /** When no entry is missing, every entry is present. */
  lemma {:induction false} AllPresentLength(column: seq<Option<string>>)
    requires forall i :: 0 <= i < |column| ==> column[i].Some?
    ensures |Present(column)| == |column|
    decreases |column|
  {
    if column != [] {
      AllPresentLength(column[..|column| - 1]);
    }
  }

  /** The chat's username column has a missing entry exactly when a linked user has no
      username, and is empty exactly when no user is linked to the chat. */
  lemma ChatColumnFacts(t: Tables, chat: int)
    ensures var column := UsernameColumn(t, ChatMemberIds(t, chat));
      ((exists i :: 0 <= i < |column| && column[i].None?) <==>
       (exists u :: u in t.users && (u, chat) in t.userChats && t.users[u].username.None?)) &&
      (column == [] <==> forall u :: u in t.users ==> (u, chat) !in t.userChats)
  {
    var ids := ChatMemberIds(t, chat);
    var column := UsernameColumn(t, ids);
    if exists u :: u in t.users && (u, chat) in t.userChats && t.users[u].username.None? {
      var u :| u in t.users && (u, chat) in t.userChats && t.users[u].username.None?;
      var i :| 0 <= i < |ids| && ids[i] == u;
      assert column[i].None?;
    }
    if ids != [] { assert ids[0] in ids; }
  }

  /** The same for the members of a group. */
  lemma GroupColumnFacts(t: Tables, group: int)
    ensures var column := UsernameColumn(t, GroupMemberIds(t, group));
      ((exists i :: 0 <= i < |column| && column[i].None?) <==>
       (exists u :: u in t.users && (u, group) in t.userGroups && t.users[u].username.None?)) &&
      (column == [] <==> forall u :: u in t.users ==> (u, group) !in t.userGroups)
  {
    var ids := GroupMemberIds(t, group);
    var column := UsernameColumn(t, ids);
    if exists u :: u in t.users && (u, group) in t.userGroups && t.users[u].username.None? {
      var u :| u in t.users && (u, group) in t.userGroups && t.users[u].username.None?;
      var i :| 0 <= i < |ids| && ids[i] == u;
      assert column[i].None?;
    }
    if ids != [] { assert ids[0] in ids; }
  }

  /** `get_all_usernames`: the usernames of the users linked to the chat. */
  function AllUsernamesOp(t: Tables, chat: int, fail: bool): (r: Py<string>)
    ensures fail ==> r == Value(SomethingWentWrong)
    ensures !fail ==> (r.Raises? <==> exists u :: u in t.users && (u, chat) in t.userChats && t.users[u].username.None?)
    ensures !fail ==> (r == Value(NoUsersFound) <==> forall u :: u in t.users ==> (u, chat) !in t.userChats)
    ensures !fail && r.Value? && r.value != NoUsersFound ==> exists names ::
      Sorted(names) && multiset(names) == multiset(Present(UsernameColumn(t, ChatMemberIds(t, chat)))) &&
      r.value == Mentions(names)
  {
    if fail then Value(SomethingWentWrong)
    else
      ChatColumnFacts(t, chat);
      MentionRows(UsernameColumn(t, ChatMemberIds(t, chat)), NoUsersFound)
  }

  /** `get_usernames_by_group`: an empty group reads as an error. */
  function UsernamesByGroupOp(t: Tables, group: int, fail: bool): (r: Py<string>)
    ensures fail ==> r == Value(SomethingWentWrong)
    ensures !fail ==> (r.Raises? <==> exists u :: u in t.users && (u, group) in t.userGroups && t.users[u].username.None?)
    ensures !fail ==> (r == Value(SomethingWentWrong) <==> forall u :: u in t.users ==> (u, group) !in t.userGroups)
    ensures !fail && r.Value? && r.value != SomethingWentWrong ==> exists names ::
      Sorted(names) && multiset(names) == multiset(Present(UsernameColumn(t, GroupMemberIds(t, group)))) &&
      r.value == Mentions(names)
  {
    if fail then Value(SomethingWentWrong)
    else
      GroupColumnFacts(t, group);
      MentionRows(UsernameColumn(t, GroupMemberIds(t, group)), SomethingWentWrong)
  }

  /** The names kept by the loop at the top of `get_group_members_by_names`. */
  function ValidNames(names: seq<string>): (r: seq<string>)
    ensures |r| <= |names|
    ensures forall i :: 0 <= i < |r| ==> MatchesName(r[i])
  {
    if names == [] then []
    else
      var n := |names| - 1;
      var cleaned := SanitizeUsername(Some(names[n]));
      ValidNames(names[..n]) + (if cleaned.Some? && MatchesName(cleaned.value) then [cleaned.value] else [])
  }

  /** The loop itself. */
  method SanitizeGroupNames(names: seq<string>) returns (r: seq<string>)
    ensures r == ValidNames(names)
  {
    r := [];
    var i := 0;
    while i < |names|
      invariant 0 <= i <= |names|
      invariant r == ValidNames(names[..i])
    {
      assert names[..i + 1][..i] == names[..i];
      var cleaned := SanitizeUsername(Some(names[i]));
      if cleaned.Some? && MatchesName(cleaned.value) {
        r := r + [cleaned.value];
      }
      i := i + 1;
    }
    assert names[..i] == names;
  }

  /** The sorted non-NULL usernames of a group's members: exactly the usernames those
      members have. */
  function MemberNames(t: Tables, group: int): (r: seq<string>)
    ensures Sorted(r)
    ensures multiset(r) == multiset(Present(UsernameColumn(t, GroupMemberIds(t, group))))
    ensures forall u :: u in r <==>
      exists m :: m in t.users && (m, group) in t.userGroups && t.users[m].username == Some(u)
  {
    var column := UsernameColumn(t, GroupMemberIds(t, group));
    var r := Sort(Present(column));
    assert forall u :: u in r <==>
      exists m :: m in t.users && (m, group) in t.userGroups && t.users[m].username == Some(u) by {
      forall u ensures u in r <==>
        exists m :: m in t.users && (m, group) in t.userGroups && t.users[m].username == Some(u) {
        assert u in r <==> u in multiset(r);
        assert u in Present(column) <==> u in multiset(Present(column));
        MemberColumn(t, group, u);
      }
    }
    r
  }

  /** A username is in the members' column exactly when some member has it. */
  lemma MemberColumn(t: Tables, group: int, u: string)
    ensures u in Present(UsernameColumn(t, GroupMemberIds(t, group))) <==>
      exists m :: m in t.users && (m, group) in t.userGroups && t.users[m].username == Some(u)
  {
    var ids := GroupMemberIds(t, group);
    var column := UsernameColumn(t, ids);
    PresentMembers(column, u);
    if exists m :: m in t.users && (m, group) in t.userGroups && t.users[m].username == Some(u) {
      var m :| m in t.users && (m, group) in t.userGroups && t.users[m].username == Some(u);
      var i :| 0 <= i < |ids| && ids[i] == m;
      assert column[i] == Some(u);
    }
  }

  /** `get_group_members_by_names`: for each requested group of the chat, the sorted
      non-NULL usernames of its members (the LEFT JOIN keeps empty groups). */
  function GroupMembersByNamesOp(t: Tables, chat: int, names: seq<string>, fail: bool): (r: map<string, seq<string>>)
    ensures forall n :: n in r <==>
      !fail && n in ValidNames(names) && exists g :: g in t.groups && t.groups[g] == GroupRow(n, chat)
    ensures forall n :: n in r ==> r[n] == MemberNames(t, GroupByName(t, chat, n).value)
  {
    var wanted := ValidNames(names);
    if wanted == [] || fail then map[]
    else map n | n in wanted && GroupByName(t, chat, n).Some? :: MemberNames(t, GroupByName(t, chat, n).value)
  }

  // ---------------------------------------------------------------- the store object

  /** `DataBase`: the tables it owns, updated in place by its methods. */
  class DataBase {
    var users: map<int, UserRow>
    var chats: map<int, ChatRow>
    var userChats: set<(int, int)>
    var groups: map<int, GroupRow>
    var userGroups: set<(int, int)>
    var nextGroupId: int

    function Snapshot(): Tables
      reads this
    {
      Tables(users, chats, userChats, groups, userGroups, nextGroupId)
    }

    ghost predicate Valid()
      reads this
    {
      ValidTables(Snapshot())
    }

    constructor ()
      ensures Snapshot() == EmptyTables && Valid()
    {
      users, chats, userChats := map[], map[], {};
      groups, userGroups, nextGroupId := map[], {}, 1;
    }

    method CreateUser(id: int, firstName: string, username: Option<string>, fail: bool) returns (created: bool)
      requires Valid()
      modifies this
      ensures Valid()
      ensures (created, Snapshot()) == CreateUserOp(old(Snapshot()), id, firstName, username, fail)
    {
      var name := SanitizeUsername(username);
      if fail || id in users {
        return false;
      }
      users := users[id := UserRow(firstName, name)];
      return true;
    }

    method AddGroupChatToUser(user: int, chat: int, fail: bool) returns (linked: bool)
      requires Valid()
      modifies this
      ensures Valid()
      ensures (linked, Snapshot()) == AddGroupChatOp(old(Snapshot()), user, chat, fail)
    {
      if fail || user !in users || chat !in chats || (user, chat) in userChats {
        return false;
      }
      userChats := userChats + {(user, chat)};
      return true;
    }

    method CreateGroupChat(chat: int, title: string, chatType: string, fail: bool) returns (stored: bool)
      requires Valid()
      modifies this
      ensures Valid()
      ensures (stored, Snapshot()) == CreateGroupChatOp(old(Snapshot()), chat, title, chatType, fail)
    {
      if fail {
        return false;
      }
      chats := chats[chat := ChatRow(title, chatType)];
      return true;
    }

    method UpdateUser(id: int, firstName: string, username: Option<string>, fail: bool) returns (updated: bool)
      requires Valid()
      modifies this
      ensures Valid()
      ensures (updated, Snapshot()) == UpdateUserOp(old(Snapshot()), id, firstName, username, fail)
    {
      var name := SanitizeUsername(username);
      if fail || id !in users {
        return false;
      }
      users := users[id := UserRow(firstName, name)];
      return true;
    }

    /** The loop of `create_group` and `add_users_to_group`. */
    method AddMembers(group: int, usernames: seq<string>) returns (lines: string)
      modifies this
      ensures var r := AddAll(old(Snapshot()), group, usernames);
        lines == Lines(usernames, r.0) && Snapshot() == r.1
    {
      lines := "";
      ghost var outcomes: seq<Outcome> := [];
      var i := 0;
      while i < |usernames|
        invariant 0 <= i <= |usernames|
        invariant AddAll(old(Snapshot()), group, usernames[..i]) == (outcomes, Snapshot())
        invariant |outcomes| == i && lines == Lines(usernames[..i], outcomes)
      {
        assert usernames[..i + 1][..i] == usernames[..i];
        var username := usernames[i];
        var user := UserByName(users, username);
        var o;
        if user.None? {
          o := NotFound;
        } else if (user.value, group) in userGroups {
          o := AlreadyIn;
        } else {
          userGroups := userGroups + {(user.value, group)};
          o := Added;
        }
        assert (outcomes + [o])[..i] == outcomes;
        lines := lines + Line(username, o);
        outcomes := outcomes + [o];
        i := i + 1;
      }
      assert usernames[..i] == usernames;
    }

    /** The loop of `delete_users_from_group`. */
    method RemoveMembers(group: int, usernames: seq<string>) returns (lines: string)
      modifies this
      ensures var r := RemoveAllMembers(old(Snapshot()), group, usernames);
        lines == Lines(usernames, r.0) && Snapshot() == r.1
    {
      lines := "";
      ghost var outcomes: seq<Outcome> := [];
      var i := 0;
      while i < |usernames|
        invariant 0 <= i <= |usernames|
        invariant RemoveAllMembers(old(Snapshot()), group, usernames[..i]) == (outcomes, Snapshot())
        invariant |outcomes| == i && lines == Lines(usernames[..i], outcomes)
      {
        assert usernames[..i + 1][..i] == usernames[..i];
        var username := usernames[i];
        var user := UserByName(users, username);
        var o;
        if user.None? {
          o := NotFound;
        } else if (user.value, group) in userGroups {
          userGroups := userGroups - {(user.value, group)};
          o := Deleted;
        } else {
          o := NotIn;
        }
        assert (outcomes + [o])[..i] == outcomes;
        lines := lines + Line(username, o);
        outcomes := outcomes + [o];
        i := i + 1;
      }
      assert usernames[..i] == usernames;
    }

    method CreateGroup(command: string, chat: int, fail: bool) returns (reply: Py<string>)
      requires Valid()
      modifies this
      ensures Valid()
      ensures (reply, Snapshot()) == CreateGroupOp(old(Snapshot()), command, chat, fail)
    {
      CreateGroupValid(Snapshot(), command, chat, fail);
      var parsed := ExtractGroupCommand(command, "/create group");
      if parsed.Raises? {
        return Raises(parsed.exc);
      }
      if parsed.value.None? {
        return Value(CreateFormatError);
      }
      var cmd := parsed.value.value;
      if fail {
        return Value(CreateFailed);
      }
      reply := CreateParsed(cmd, chat);
    }

    method CreateParsed(cmd: GroupCommand, chat: int) returns (reply: Py<string>)
      modifies this
      ensures (reply, Snapshot()) == (Value(CreateParsedGroup(old(Snapshot()), cmd, chat).0), CreateParsedGroup(old(Snapshot()), cmd, chat).1)
    {
      var existing := GroupByName(Snapshot(), chat, cmd.name);
      var group, message;
      if existing.Some? {
        group := existing.value;
        message := "Group @" + cmd.name + " already exists";
      } else {
        if chat !in chats {
          return Value(CreateFailed);
        }
        group := InsertGroupRow(cmd.name, chat);
        message := "Group @" + cmd.name + " has been created";
      }
      var lines := AddMembers(group, cmd.users);
      return Value(message + lines);
    }

    /** `INSERT INTO groups ... RETURNING id`. */
    method InsertGroupRow(name: string, chat: int) returns (group: int)
      modifies this
      ensures group == old(nextGroupId) && Snapshot() == InsertGroup(old(Snapshot()), name, chat)
    {
      group := nextGroupId;
      groups := groups[group := GroupRow(name, chat)];
      nextGroupId := nextGroupId + 1;
    }

    method DeleteGroup(command: string, chat: int, fail: bool) returns (deleted: bool)
      requires Valid()
      modifies this
      ensures Valid()
      ensures (deleted, Snapshot()) == DeleteGroupOp(old(Snapshot()), command, chat, fail)
    {
      DeleteGroupValid(Snapshot(), command, chat, fail);
      var name := ExtractGroupName(command, "/delete group");
      if name.None? || fail {
        return false;
      }
      var group := GroupByName(Snapshot(), chat, name.value);
      if group.None? {
        return false;
      }
      groups := groups - {group.value};
      userGroups := set p | p in userGroups && p.1 != group.value;
      return true;
    }

    method AddUsersToGroup(command: string, chat: int, fail: bool) returns (reply: Py<string>)
      requires Valid()
      modifies this
      ensures Valid()
      ensures (reply, Snapshot()) == AddUsersOp(old(Snapshot()), command, chat, fail)
    {
      var parsed := ExtractGroupCommand(command, "/add to group");
      if parsed.Raises? {
        return Raises(parsed.exc);
      }
      if parsed.value.None? {
        return Value(AddFormatError);
      }
      var cmd := parsed.value.value;
      if fail {
        return Value(AddFailed);
      }
      var group := GroupByName(Snapshot(), chat, cmd.name);
      if group.None? {
        return Value("Group @" + cmd.name + " was not found");
      }
      AddAllValid(Snapshot(), group.value, cmd.users);
      var lines := AddMembers(group.value, cmd.users);
      return Value(Report(lines));
    }

    method DeleteUsersFromGroup(command: string, chat: int, fail: bool) returns (reply: Py<string>)
      requires Valid()
      modifies this
      ensures Valid()
      ensures (reply, Snapshot()) == DeleteUsersOp(old(Snapshot()), command, chat, fail)
    {
      var parsed := ExtractGroupCommand(command, "/delete users group");
      if parsed.Raises? {
        return Raises(parsed.exc);
      }
      if parsed.value.None? {
        return Value(DeleteUsersFormatError);
      }
      var cmd := parsed.value.value;
      if fail {
        return Value(DeleteUsersFailed);
      }
      var group := GroupByName(Snapshot(), chat, cmd.name);
      if group.None? {
        return Value("Group @" + cmd.name + " was not found");
      }
      RemoveAllValid(Snapshot(), group.value, cmd.users);
      var lines := RemoveMembers(group.value, cmd.users);
      return Value(Report(lines));
    }
  }
}
