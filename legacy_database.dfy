/** The older SQLite store: two tables, `group_chats` and `users`, where a user row is
    one membership of a user in a chat. Rows are only ever appended, so a row's id is its
    position plus one, and `limit 1` without `order by` yields the lowest id. */
module LegacyStore {
  import opened Wrappers
  import opened PyStr

  datatype ChatRow = ChatRow(chatId: int, title: Option<string>, chatType: string)

  /** `group_chat_id` is NULL for a user stored under an unregistered chat. */
  datatype UserRow = UserRow(groupChatId: Option<int>, userId: int, firstName: string, username: Option<string>)

  const SomethingWentWrong := "Что-то пошло не так"

  /** The first row, from `i` on, with that `chat_id`. */
  function FirstChatFrom(rows: seq<ChatRow>, chatId: int, i: nat): (r: Option<nat>)
    requires i <= |rows|
    ensures r.Some? ==> (i <= r.value < |rows| && rows[r.value].chatId == chatId &&
      forall k :: i <= k < r.value ==> rows[k].chatId != chatId)
    ensures r.None? <==> forall k :: i <= k < |rows| ==> rows[k].chatId != chatId
    decreases |rows| - i
  {
    if i == |rows| then None
    else if rows[i].chatId == chatId then Some(i)
    else FirstChatFrom(rows, chatId, i + 1)
  }

  /** `chat_id` identifies at most one row. */
  predicate ChatIdsUnique(rows: seq<ChatRow>) {
    forall i, j :: 0 <= i < j < |rows| ==> rows[i].chatId != rows[j].chatId
  }

  /** `select ... where user_id = ? and group_chat_id = ?`: SQL's `= NULL` never holds, so
      nothing matches an unregistered chat, and rows with a NULL chat never match. */
  predicate HasMember(users: seq<UserRow>, userId: int, groupChatId: Option<int>) {
    groupChatId.Some? &&
    exists k :: 0 <= k < |users| && users[k].userId == userId && users[k].groupChatId == groupChatId
  }

  /** Each user appears at most once per registered chat. */
  predicate MembershipUnique(users: seq<UserRow>) {
    forall i, j :: 0 <= i < j < |users| && users[i].groupChatId.Some? ==>
      users[i].userId != users[j].userId || users[i].groupChatId != users[j].groupChatId
  }

  /** The ids of the rows of a user, in id order. */
  function UserRowIds(users: seq<UserRow>, userId: int): (r: seq<int>)
    ensures forall x :: x in r <==> 1 <= x <= |users| && users[x - 1].userId == userId
    ensures forall a, b :: 0 <= a < b < |r| ==> r[a] < r[b]
    ensures forall a :: 0 <= a < |r| ==> r[a] <= |users|
  {
    if users == [] then []
    else
      var init := users[..|users| - 1];
      var r := UserRowIds(init, userId) + (if users[|users| - 1].userId == userId then [|users|] else []);
      assert forall k :: 0 <= k < |init| ==> init[k] == users[k];
      r
  }

  /** A row after `update users set first_name = ?, username = ?`. */
  function Renamed(row: UserRow, firstName: string, username: Option<string>): UserRow {
    row.(firstName := firstName, username := username)
  }

  /** Every row of the user renamed, every other row as it was. */
  function UpdatedUsers(users: seq<UserRow>, userId: int, firstName: string, username: Option<string>): seq<UserRow> {
    seq(|users|, k requires 0 <= k < |users| =>
      if users[k].userId == userId then Renamed(users[k], firstName, username) else users[k])
  }

  /** Row by row, the username of a row stored under that chat, and None for other rows. */
  function ChatColumn(users: seq<UserRow>, groupChatId: Option<int>): seq<Option<Option<string>>> {
    seq(|users|, k requires 0 <= k < |users| =>
      if users[k].groupChatId == groupChatId then Some(users[k].username) else None)
  }

  /** The usernames of the rows stored under a registered chat, in id order. */
  function ChatUsernames(users: seq<UserRow>, groupChatId: Option<int>): (r: seq<Option<string>>)
    ensures groupChatId.None? ==> r == []
    ensures groupChatId.Some? ==> r == Present(ChatColumn(users, groupChatId))
    ensures |r| <= |users|
    ensures forall u :: u in r ==> exists k :: 0 <= k < |users| && users[k].groupChatId == groupChatId && users[k].username == u
    ensures (exists k :: 0 <= k < |users| && groupChatId.Some? && users[k].groupChatId == groupChatId) ==> r != []
  {
    if users == [] || groupChatId.None? then []
    else
      var init := users[..|users| - 1];
      var last := users[|users| - 1];
      var r := ChatUsernames(init, groupChatId) + (if last.groupChatId == groupChatId then [last.username] else []);
      assert forall k :: 0 <= k < |init| ==> init[k] == users[k];
      assert ChatColumn(users, groupChatId)[..|init|] == ChatColumn(init, groupChatId);
      r
  }

  /** `"@" + name[0]` over the rows; a NULL username raises TypeError. */
  function AtNames(column: seq<Option<string>>): (r: Py<seq<string>>)
    ensures r.Raises? <==> exists k :: 0 <= k < |column| && column[k].None?
    ensures r.Raises? ==> r.exc == TypeError
    ensures r.Value? ==> |r.value| == |column| && forall k :: 0 <= k < |column| ==> r.value[k] == "@" + column[k].value
  {
    if column == [] then Value([])
    else
      var init := column[..|column| - 1];
      var last := column[|column| - 1];
      assert forall k :: 0 <= k < |init| ==> init[k] == column[k];
      match AtNames(init)
      case Raises(e) => Raises(e)
      case Value(names) => if last.None? then Raises(TypeError) else Value(names + ["@" + last.value])
  }

  /** What `getAllUsernames` returns for the chat's internal id. */
  function UsernamesReply(users: seq<UserRow>, groupChatId: Option<int>): Py<string> {
    match AtNames(ChatUsernames(users, groupChatId))
    case Raises(e) => Raises(e)
    case Value(names) => Value(Join(names, ", "))
  }

  /** A join of "@"-prefixed parts is empty or starts with "@". */
  lemma {:induction false} JoinAtStart(parts: seq<string>)
    requires forall k :: 0 <= k < |parts| ==> parts[k] != [] && parts[k][0] == '@'
    ensures Join(parts, ", ") == [] <==> parts == []
    ensures parts != [] ==> Join(parts, ", ")[0] == '@'
  {
    if |parts| >= 2 {
      assert Join(parts, ", ") == parts[0] + ", " + Join(parts[1..], ", ");
    }
  }

  /** The usernames of a chat: the empty text for an unregistered chat or one without
      rows, TypeError when one of its rows holds a NULL username, and never the error text. */
  lemma UsernamesReplyFacts(users: seq<UserRow>, groupChatId: Option<int>)
    ensures groupChatId.None? ==> UsernamesReply(users, groupChatId) == Value("")
    ensures UsernamesReply(users, groupChatId).Raises? <==>
      exists k :: 0 <= k < |ChatUsernames(users, groupChatId)| && ChatUsernames(users, groupChatId)[k].None?
    ensures UsernamesReply(users, groupChatId) != Value(SomethingWentWrong)
    ensures UsernamesReply(users, groupChatId) == Value("") <==>
      !exists k :: 0 <= k < |users| && groupChatId.Some? && users[k].groupChatId == groupChatId
  {
    var column := ChatUsernames(users, groupChatId);
    var r := AtNames(column);
    assert UsernamesReply(users, groupChatId).Raises? <==> r.Raises?;
    if r.Value? {
      JoinAtStart(r.value);
      if r.value != [] {
        assert SomethingWentWrong[0] != '@';
      }
    }
  }

  /** `updateUser` renames every row of that user, and touches no other row. */
  lemma UpdateUserEffect(users: seq<UserRow>, userId: int, firstName: string, username: Option<string>)
    ensures var r := UpdatedUsers(users, userId, firstName, username);
      |r| == |users| &&
      forall k :: 0 <= k < |users| ==>
        r[k].userId == users[k].userId && r[k].groupChatId == users[k].groupChatId &&
        (users[k].userId == userId ==> r[k].firstName == firstName && r[k].username == username) &&
        (users[k].userId != userId ==> r[k] == users[k])
  {
  }

  class LegacyDataBase {
    var groupChats: seq<ChatRow>
    var users: seq<UserRow>

    /** Opening the database file: `create table if not exists` keeps what is stored. */
    constructor (storedChats: seq<ChatRow>, storedUsers: seq<UserRow>)
      ensures groupChats == storedChats && users == storedUsers
    {
      groupChats, users := storedChats, storedUsers;
    }

    /** `getGroupChatId`: the id of the first row with that `chat_id`. */
    function GetGroupChatId(chatId: int): (r: Option<int>)
      reads this
      ensures r.None? <==> forall k :: 0 <= k < |groupChats| ==> groupChats[k].chatId != chatId
      ensures r.Some? ==> 1 <= r.value <= |groupChats| && groupChats[r.value - 1].chatId == chatId
    {
      match FirstChatFrom(groupChats, chatId, 0)
      case None => None
      case Some(i) => Some(i + 1)
    }

    /** `isUserAlreadyInGroupChat`. */
    predicate IsUserAlreadyInGroupChat(userId: int, groupChatId: Option<int>)
      reads this
    {
      HasMember(users, userId, groupChatId)
    }

    /** `createGroupChat`: insert only when no row has that `chat_id`. */
    method CreateGroupChat(chatId: int, title: Option<string>, chatType: string) returns (created: bool)
      modifies this
      ensures created <==> old(GetGroupChatId(chatId)).None?
      ensures created ==> groupChats == old(groupChats) + [ChatRow(chatId, title, chatType)]
      ensures !created ==> groupChats == old(groupChats)
      ensures users == old(users)
      ensures ChatIdsUnique(old(groupChats)) ==> ChatIdsUnique(groupChats)
    {
      var existing := GetGroupChatId(chatId);
      if existing.None? {
        groupChats := groupChats + [ChatRow(chatId, title, chatType)];
        return true;
      }
      return false;
    }

    /** `createUser`: insert a row unless the user already has one under that chat. For an
        unregistered chat the lookup compares with NULL, so a row is inserted every time. */
    method CreateUser(chatId: int, userId: int, firstName: string, username: Option<string>) returns (created: bool)
      modifies this
      ensures created <==> !HasMember(old(users), userId, old(GetGroupChatId(chatId)))
      ensures created ==> users == old(users) + [UserRow(old(GetGroupChatId(chatId)), userId, firstName, username)]
      ensures !created ==> users == old(users)
      ensures old(GetGroupChatId(chatId)).None? ==> created && |users| == |old(users)| + 1
      ensures groupChats == old(groupChats)
      ensures MembershipUnique(old(users)) ==> MembershipUnique(users)
    {
      var groupChatId := GetGroupChatId(chatId);
      if !IsUserAlreadyInGroupChat(userId, groupChatId) {
        users := users + [UserRow(groupChatId, userId, firstName, username)];
        return true;
      }
      return false;
    }

    /** `getAllUserIds`: the ids of the user's rows. */
    method GetAllUserIds(userId: int) returns (ids: seq<int>)
      ensures ids == UserRowIds(users, userId)
    {
      ids := [];
      var i := 0;
      while i < |users|
        invariant 0 <= i <= |users|
        invariant ids == UserRowIds(users[..i], userId)
      {
        assert users[..i + 1][..i] == users[..i];
        if users[i].userId == userId {
          ids := ids + [i + 1];
        }
        i := i + 1;
      }
      assert users[..i] == users;
    }

    /** `updateUser`: rename each of the user's rows; the answer is always true. */
    method UpdateUser(userId: int, firstName: string, username: Option<string>) returns (ok: bool)
      modifies this
      ensures ok
      ensures users == UpdatedUsers(old(users), userId, firstName, username)
      ensures groupChats == old(groupChats)
    {
      var ids := GetAllUserIds(userId);
      var rows := users;
      var i := 0;
      while i < |ids|
        invariant 0 <= i <= |ids|
        invariant |rows| == |users|
        invariant forall k :: 0 <= k < |rows| ==>
          rows[k] == if k + 1 in ids[..i] then Renamed(users[k], firstName, username) else users[k]
      {
        var id := ids[i];
        assert id in ids;
        assert ids[..i + 1] == ids[..i] + [id];
        rows := rows[id - 1 := Renamed(rows[id - 1], firstName, username)];
        i := i + 1;
      }
      assert ids[..i] == ids;
      users := rows;
      return true;
    }

    /** `getAllUsernames`: the chat's usernames as mentions, joined by ", ". */
    method GetAllUsernames(chatId: int) returns (r: Py<string>)
      ensures r == UsernamesReply(users, GetGroupChatId(chatId))
    {
      var groupChatId := GetGroupChatId(chatId);
      var rows := ChatUsernames(users, groupChatId);
      var usernames: seq<string> := [];
      var i := 0;
      while i < |rows|
        invariant 0 <= i <= |rows|
        invariant AtNames(rows[..i]) == Value(usernames)
      {
        assert rows[..i + 1][..i] == rows[..i];
        if rows[i].None? {
          assert AtNames(rows[..i + 1]).Raises?;
          AtNamesRaisesOnward(rows, i + 1);
          return Raises(TypeError);
        }
        usernames := usernames + ["@" + rows[i].value];
        i := i + 1;
      }
      assert rows[..i] == rows;
      return Value(Join(usernames, ", "));
    }
  }

  /** Once a prefix raises, the whole column raises. */
  lemma AtNamesRaisesOnward(column: seq<Option<string>>, n: nat)
    requires n <= |column| && AtNames(column[..n]).Raises?
    ensures AtNames(column) == Raises(TypeError)
  {
    var k :| 0 <= k < n && column[..n][k].None?;
    assert column[k].None?;
  }
}
