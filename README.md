# A Dafny model of a Telegram group-mention bot

The bot keeps, per Telegram chat, named groups of users. A message that mentions
`@group` is answered with the usernames of that group's members. `@all` is answered
with every registered user of the chat. On top of that the bot:

- parses the `/create group`, `/add to group`, `/delete users group` and
  `/delete group` commands;
- downloads TikTok and Instagram media through RapidAPI, behind a request quota;
- relays a message to a chosen chat through the private `/say` conversation;
- writes replies with a Gemini model picked from a list of candidate names;
- checks its configuration before starting.

The model takes the form of each source file:

- Pure code (the command parser, the payload extractors, the prompt and history
  helpers, the mention rule) becomes datatypes, functions and lemmas.
- Code that updates state in place (the Postgres store, the legacy SQLite store, the
  request quota, the `/say` conversation's `user_data`, the cached Gemini model name)
  becomes a `class`. Each method's contract gives the new value of every field it may
  change.
- Loops in the source (the user-list loop of the parser, the membership loops of the
  store, `_format_history`, `_all_candidate_names`, the model-trying loop) become
  methods with loop invariants. Each is proved equal to a specification function, and
  the properties are proved about that function.
- `Settings.require` is ten straight-line checks. It becomes a method of ten calls,
  each tied by its contract to the reference list of missing names.

Python behaviour the code relies on is written out:

- An escaping exception is a value `Py.Raises(exc)`. Examples: the `IndexError` of
  `parse_group_command` on `"NAME:x"`, the `TypeError` of `"@" + None`, the
  `AttributeError` of `.get` on a non-object, and `RuntimeError` from
  `Settings.require`.
- Truthiness of JSON values and of optional strings.
- `str.strip`, `lower`, `partition`, `split`, `replace`, `find` and `join`, in module
  `PyStr`.
- SQL `= NULL` never matching.
- `ON CONFLICT DO NOTHING` returning whether a row was inserted.
- A failing transaction leaving the tables unchanged.

Modules:

- `Wrappers`: `Option`, the Python exception kinds, `Py`, and `Present`, which keeps
  the present entries of a list.
- `PyStr`: Python string builtins.
- `Sorting`: `ORDER BY` over strings.
- `IntSets`: the least element of a set, and a set listed in ascending order.
- `GroupCommands`: `_sanitize_username`, `parse_group_command`,
  `_extract_group_command` and `_extract_group_name`.
- `Store`: the Postgres `DataBase` of `services/database.py`. It is a class over five
  in-memory relations: users, group_chats, user_group_chats, groups and user_groups.
  The schema's keys, `UNIQUE(group_chat_id, name)` and `ON DELETE CASCADE` are an
  invariant (`ValidTables`) that every method keeps.
- `LegacyStore`: the older SQLite `DataBase` of the root `database.py`.
- `SayConversation`: the `/say` handlers on a `UserData` class.
- `Dispatch`: `handle_message`, over an abstract environment of answers.
- `Usage`: `UsageTracker`.
- `MediaBase`, `TikTok`, `Instagram`: the media downloaders.
- `Gemini`: the pure parts of the Gemini client.
- `Settings`: `Settings.require`.
- `VideoDownloader`: `_normalize_extension`.

Every operation of `Store.DataBase` that the source wraps in `try` takes a `fail` flag.
The inner steps (`AddMembers`, `RemoveMembers`, `CreateParsed`, `InsertGroupRow`) take
none. The flag stands for the driver raising
inside the blanket `except Exception`: the method then answers with the source's
fallback value and the tables stay as they were.

## Model

| member | source | states |
|---|---|---|
| GroupCommands.SanitizeUsername | services/database.py:24-28 | A sanitised username is never empty and never starts with '@'. |
| GroupCommands.ParseGroupCommand | services/database.py:31-51 | The loop over the comma-separated users gives exactly `GroupCommandOf(command)`, the reference parse. |
| GroupCommands.CollectUsers | services/database.py:42-50 | The loop that appends each sanitised username, and gives up at the first invalid one, gives exactly `UsersOf(tokens)`. |
| GroupCommands.BadTokenRejects | services/database.py:47-48 | One token that sanitises to an invalid username rejects the whole list. |
| GroupCommands.KeptMembers | services/database.py:43-49 | A user is kept exactly when some token sanitises to it. |
| GroupCommands.KeptPrefix | services/database.py:43-49 | Kept users keep the order of their tokens: those of a prefix of the tokens come first. |
| GroupCommands.UsersRejectedIff | services/database.py:43-51 | The user list is rejected exactly when some token sanitises to a non-empty invalid username; tokens that sanitise to nothing are dropped. |
| GroupCommands.AcceptedUsersWellFormed | services/database.py:24-28 | Every accepted user matches `[A-Za-z0-9_]{1,255}`, has no leading '@', and comes from a token of the list. |
| GroupCommands.ParsedCommandWellFormed | services/database.py:31-51 | A command is returned only when the stripped text starts with "name:" up to case. Its name matches the group-name pattern, and every user matches the username pattern. |
| GroupCommands.ParseRaisesIff | services/database.py:32-38 | The parser raises exactly when the case-insensitive prefix test passes but the text before the first "users:" holds no exact "name:". |
| GroupCommands.NameBeforeUsers | services/database.py:37-38 | A text that starts with exactly "name:" keeps that "name:" at the front of the part before "users:". |
| GroupCommands.ExactPrefixNeverRaises | services/database.py:32-38 | A stripped text that starts with exactly "name:" never makes the parser raise. |
| GroupCommands.UpperCaseNameRaises | services/database.py:33-38 | "NAME:team" passes the prefix test of line 33 and raises `IndexError` at line 38. |
| GroupCommands.ExtractGroupName | services/database.py:224-232 | Any name returned matches `GROUP_NAME_PATTERN` in full. |
| GroupCommands.ExtractIgnoresAtSigns | services/database.py:217-229 | Removing every '@' from the text first changes neither extractor's answer. |
| GroupCommands.ExtractedCommandWellFormed | services/database.py:217-222 | A command found by `_extract_group_command` lies behind the prefix, up to case, in the '@'-free stripped text, and carries a valid name and valid users. |
| GroupCommands.NameMarkerMayTrail | services/database.py:224-232 | The first "name:" is removed wherever it appears, so "/delete group teamname:" names the group "team". |
| Store.UserByName | services/database.py:269-273 | `SELECT id FROM users WHERE username = %s` finds a user with that username, and finds none exactly when no user has it. |
| Store.GroupByName | services/database.py:258-262 | The lookup by (name, chat) finds such a group, and finds none exactly when none exists. |
| Store.GroupByNameUnique | services/database.py:305-309 | Under `UNIQUE(group_chat_id, name)` the lookup finds the one group with that name. |
| Store.CreateUserOp | services/database.py:89-107 | `create_user` returns true exactly when no user had that id and the driver did not fail. Existing users are never altered. A new user holds the sanitised username. |
| Store.AddGroupChatOp | services/database.py:109-126 | `add_group_chat_to_user` returns true exactly when the (user, chat) pair was new and both rows exist. The link table changes only by that pair. |
| Store.CreateGroupChatOp | services/database.py:128-143 | `create_group_chat` is an upsert. Afterwards the chat has exactly the given title and type; other chats are unchanged; it fails only when the driver fails. |
| Store.UpdateUserOp | services/database.py:180-194 | `update_user` returns true exactly when the id exists. It then sets `first_name` and the sanitised username, and changes no other user. |
| Store.AddAll | services/database.py:268-287 | The membership loop produces one outcome per username. It only adds memberships and touches no other table. Each added pair is (u, group), where u is the user found for one of the listed usernames. |
| Store.RemoveAllMembers | services/database.py:389-404 | The removal loop produces one outcome per username. It only removes memberships and touches no other table. Each removed pair is (u, group), where u is the user found for one of the listed usernames. |
| Store.AddAllOutcomes | services/database.py:339-358 | Each listed username gets exactly one of "was not found", "has been added" or "is already in group". It gets "was not found" exactly when no user has that name; afterwards every found user is a member. |
| Store.RemoveAllOutcomes | services/database.py:389-404 | Each listed username gets exactly one of "was not found", "has been deleted" or "was not in group". Afterwards no found user is a member. |
| Store.AddAllValid | services/database.py:268-287 | Adding members to an existing group keeps every schema constraint. |
| Store.RemoveAllValid | services/database.py:389-404 | Removing members keeps every schema constraint. |
| Store.LinesStripNonEmpty | services/database.py:368 | The lines for a non-empty user list never strip to the empty text. |
| Store.CreateGroupOp | services/database.py:234-294 | A parse that raises leaves the tables unchanged. A command that does not parse gets the format-error reply, and a driver failure the "could not create" reply; both leave the tables unchanged. |
| Store.InsertGroupValid | services/database.py:244-256 | Inserting a name not yet used in a registered chat keeps every constraint, and the new id is fresh. |
| Store.CreateGroupValid | services/database.py:234-294 | `create_group` keeps every constraint, `UNIQUE(group_chat_id, name)` among them. |
| Store.CreateGroupRepeated | services/database.py:257-287 | A name already taken in the chat creates no group. The reply is "Group @name already exists" followed by one line per listed username, with that username's outcome in the existing group. The tables become those of adding the listed users to the existing group: users, chats, chat links and the serial counter are unchanged, and every user found by a listed username is a member afterwards. |
| Store.CreateGroupNew | services/database.py:253-287 | A new name in a registered chat creates exactly one group, under a fresh id. The reply is "Group @name has been created" followed by one line per listed username, with that username's outcome in the new group. The tables become those of adding the listed users to the new group: users, chats and chat links are unchanged, and every user found by a listed username is a member of the new group afterwards. |
| Store.CreateGroupUnregisteredChat | services/database.py:288-292 | In an unregistered chat the foreign key rejects the insert: the reply is the failure text and nothing changes. |
| Store.DeleteGroupOp | services/database.py:296-318 | `delete_group` succeeds exactly when the name is valid and names a group of the chat. On false nothing changes. |
| Store.DeleteGroupEffect | services/database.py:305-313 | After a successful delete, that group and all its memberships are gone (the cascade). No group id is added, `nextGroupId` stays, and the users, chats and chat links are unchanged. |
| Store.DeleteGroupValid | services/database.py:296-318 | `delete_group` keeps every constraint. |
| Store.Report | services/database.py:368 | The reply of the membership commands is never empty. |
| Store.AddUsersOp | services/database.py:320-368 | `add_users_to_group` changes only memberships and only adds them; it never creates a group. A parse that raises writes nothing. A command that does not parse gets the format-error reply, and a driver failure the "could not add" reply; both leave the tables unchanged. |
| Store.AddUsersNamedPairs | services/database.py:320-368 | Whatever the command, every membership `add_users_to_group` adds joins the named group of the chat with a user found for one of the listed usernames. |
| Store.DeleteUsersOp | services/database.py:370-414 | `delete_users_from_group` changes only memberships and only removes them. A parse that raises writes nothing. A command that does not parse gets the format-error reply, and a driver failure the "could not delete" reply; both leave the tables unchanged. |
| Store.DeleteUsersNamedPairs | services/database.py:370-414 | Whatever the command, every membership `delete_users_from_group` removes joins the named group of the chat with a user found for one of the listed usernames. |
| Store.AddUsersReply | services/database.py:337-368 | On an existing group the result is that of adding each listed username in turn: one reply line per username, and every user found by a listed username is a member afterwards. The reply is "No users were provided" exactly when no users are listed. Each added membership is of that group and of a user found for a listed username. |
| Store.DeleteUsersReply | services/database.py:387-414 | On an existing group the result is that of removing each listed username in turn: one reply line per username, and no user found by a listed username is a member afterwards. The reply is "No users were provided" exactly when no users are listed. Each removed membership is of that group and of a user found for a listed username. |
| Store.MissingGroupReported | services/database.py:329-335 | For "/add to group", a missing group is reported as "Group @name was not found", and nothing is written. |
| Store.MissingGroupReportedOnDelete | services/database.py:376-385 | For "/delete users group", a missing group is reported as "Group @name was not found", and nothing is removed. |
| Store.LinesHead | services/database.py:344-358 | Every non-empty list of reply lines starts with "\nUser @". |
| Store.ChatMemberIds | services/database.py:163-173 | The JOIN lists exactly the existing users linked to the chat. |
| Store.GroupMemberIds | services/database.py:479-489 | The JOIN lists exactly the existing members of the group. |
| Store.MentionRows | services/database.py:177-178 | The rows become "@name, @name, …" in sorted order, holding the same names. `"@" + None` raises `TypeError`, and no rows give the fallback text. |
| Store.ChatColumnFacts | services/database.py:163-178 | The chat's username column misses an entry exactly when a linked user has no username, and is empty exactly when no user is linked. |
| Store.GroupColumnFacts | services/database.py:479-496 | The group's username column misses an entry exactly when a member has no username, and is empty exactly when the group has none. |
| Store.AllUsernamesOp | services/database.py:159-178 | `get_all_usernames` raises exactly when a linked user has no username. It answers "Не нашёл пользователей" exactly when no user is linked, and "Something went wrong" on a driver failure. Any other answer is "@name, @name, …" over the linked users' usernames, sorted, duplicates included. |
| Store.UsernamesByGroupOp | services/database.py:475-496 | `get_usernames_by_group` raises exactly when a member has no username. Without a driver failure it answers "Something went wrong" exactly when the group has no members. Any other answer is "@name, @name, …" over the members' usernames, sorted, duplicates included. |
| Store.ValidNames | services/database.py:436-440 | The names kept are all valid group names. |
| Store.SanitizeGroupNames | services/database.py:436-440 | The sanitising loop keeps exactly `ValidNames(names)`. |
| Store.MemberNames | services/database.py:449-457 | A group's listed usernames are sorted and are a permutation of the members' non-NULL usernames, duplicates included. A name is listed exactly when some member has it. |
| Store.GroupMembersByNamesOp | services/database.py:433-473 | There is a key exactly for each valid requested name of a group in that chat. Its value is the sorted member usernames, empty for an empty group. |
| Store.DataBase.constructor | services/database.py:54-56 | A new store is empty and valid. |
| Store.DataBase.CreateUser | services/database.py:89-107 | The method's result and new tables are those of `CreateUserOp`, and the schema invariant holds afterwards. |
| Store.DataBase.AddGroupChatToUser | services/database.py:109-126 | The method's result and new tables are those of `AddGroupChatOp`, and the invariant holds. |
| Store.DataBase.CreateGroupChat | services/database.py:128-143 | The method's result and new tables are those of `CreateGroupChatOp`, and the invariant holds. |
| Store.DataBase.UpdateUser | services/database.py:180-194 | The method's result and new tables are those of `UpdateUserOp`, and the invariant holds. |
| Store.DataBase.AddMembers | services/database.py:268-287 | The loop's reply lines and new tables are those of `AddAll`. |
| Store.DataBase.RemoveMembers | services/database.py:389-404 | The loop's reply lines and new tables are those of `RemoveAllMembers`. |
| Store.DataBase.CreateGroup | services/database.py:234-294 | The method's reply and new tables are those of `CreateGroupOp`, and the invariant holds. |
| Store.DataBase.DeleteGroup | services/database.py:296-318 | The method's result and new tables are those of `DeleteGroupOp`, and the invariant holds. |
| Store.DataBase.AddUsersToGroup | services/database.py:320-368 | The method's reply and new tables are those of `AddUsersOp`, and the invariant holds. |
| Store.DataBase.DeleteUsersFromGroup | services/database.py:370-414 | The method's reply and new tables are those of `DeleteUsersOp`, and the invariant holds. |
| SayConversation.Selection | app/handlers.py:182-192 | A reply selects a chat exactly when its stripped text is decimal digits for a number in 1..len(chats); it then selects `chats[n-1]`. |
| SayConversation.SayStart | app/handlers.py:146-170 | Outside a private chat, or with no known chats, it ends and leaves `user_data` unchanged. Otherwise it stores `say_chats`, sends the menu and moves to SELECT_CHAT. |
| SayConversation.SayChooseChat | app/handlers.py:173-196 | A missing or empty `say_chats` ends the conversation. An unusable reply stays in SELECT_CHAT with `user_data` unchanged. A valid number stores `chats[n-1]` and moves to ENTER_MESSAGE. |
| SayConversation.SayReceiveMessage | app/handlers.py:199-220 | It always ends. With no selected chat nothing is stored or sent. Otherwise the text goes to the selected chat, and both keys are removed whether the send succeeded or not. |
| SayConversation.SayCancel | app/handlers.py:223-228 | It always ends, and both keys are removed. |
| SayConversation.MenuLineAt | app/handlers.py:162-166 | Line k of the menu shows chat k under the number start + k. |
| SayConversation.MenuLineNumber | app/handlers.py:162-166 | Menu line n starts with "n. ". |
| SayConversation.NumberSelects | app/handlers.py:182-192 | Replying with a menu number selects that chat. |
| SayConversation.ZeroSelectsNothing | app/handlers.py:187-190 | "0" never selects a chat. |
| Dispatch.MediaActions | app/handlers.py:32-48 | The media part makes no store call, and does nothing without a link. It raises exactly when the link is a TikTok or Instagram link and that download raises; it has then made only the download. |
| Dispatch.CommandActions | app/handlers.py:55-112 | The handler stops early exactly for `/create me` in an unregistered chat. At most one store call is made, first, and for the selected command. |
| Dispatch.GroupReplies | app/handlers.py:132-143 | The group loop only sends text replies. |
| Dispatch.MentionActions | app/handlers.py:127-143 | The mention part only sends text replies. |
| Dispatch.AfterCommands | app/handlers.py:117-143 | The command list and the mentions only send text replies. |
| Dispatch.MentionGroups | app/handlers.py:132-143 | The loop over the groups is exactly `GroupReplies`. |
| Dispatch.ReplyAfterCommands | app/handlers.py:117-143 | The method is exactly `AfterCommands`. |
| Dispatch.HandleMessage | app/handlers.py:24-143 | The method equals the reference `Handled`, and an edited message is ignored. A download that raises ends the handler with that download as its only action. |
| Dispatch.GroupRepliesStopped | app/handlers.py:136-141 | Once a group lookup raises, no later group is answered. |
| Dispatch.OneStoreCommand | app/handlers.py:55-112 | At most one store command runs per message, and it is the one the elif chain selects. |
| Dispatch.CreateMeBehaviour | app/handlers.py:65-81 | When no download raised, `/create me` makes no store call in an unregistered chat. Otherwise it reports success exactly when both the user creation and the link returned true. |
| Dispatch.AllMentionOnly | app/handlers.py:127-129 | When no download raised and "@all" is present, the only mention reply is the all-usernames reply. |
| Dispatch.GroupRepliesRaise | app/handlers.py:130-143 | The group loop raises exactly when the lookup of a group whose "@name" occurs in the text fails. |
| Dispatch.HandlerRaises | app/handlers.py:24-143 | With store answers that return, the handler raises exactly when the found link's download raises, or when it was not stopped early, the text has no "@all", and the lookup of a group mentioned as "@name" fails. An edited message never raises. |
| Dispatch.GroupMentionRule | app/handlers.py:130-143 | The group loop raises exactly when a mentioned group's lookup fails. Otherwise it sends one reply per group whose "@name" occurs in the text, in the listed order. |
| Usage.ConsumeStep | services/usage.py:35-40 | A consume succeeds exactly when something remains. Success lowers the remainder by one; failure changes nothing; no other key changes. |
| Usage.SuccessesCount | services/usage.py:35-40 | Of n consecutive consumes exactly min(n, max(0, remaining)) succeed. |
| Usage.FreshQuota | services/usage.py:18-24 | Starting fresh, at most `limit` consumes ever succeed. |
| Usage.UsageTracker.constructor | services/usage.py:7-24 | Without stored data the map is `{key: limit}`, so `remaining()` is `limit`. |
| Usage.UsageTracker.Consume | services/usage.py:35-40 | The method is exactly `ConsumeStep` on the old map. |
| Usage.UsageTracker.Reset | services/usage.py:42-44 | Only the tracker's own key is set back to `limit`. |
| MediaBase.Get | services/media/tiktok.py:34-41 | The `.get` calls of both extractors (also services/media/instagram.py:12-19): `.get` on a JSON object gives the key's value when the key is present and the default otherwise, and raises `AttributeError` on anything else. |
| MediaBase.NewDownloader | services/media/base.py:25-28 | The constructor raises `ValueError("<class> API key is missing")` exactly on an empty key, and otherwise stores it unchanged. |
| MediaBase.BuildHeaders | services/media/base.py:30-34 | There are exactly the two RapidAPI headers, with the key and the host. |
| MediaBase.BuildQuery | services/media/base.py:36-37 | The query is exactly `{"url": link}`. |
| MediaBase.Download | services/media/base.py:43-74 | A transport error or a status other than 200 gives None, and a body that is not JSON raises. Otherwise the result is exactly `extract_media(payload)`. |
| MediaBase.DownloadNeedsSuccess | services/media/base.py:55-74 | Media is returned only on a 200 response with a JSON body, and it is what the extractor gave. |
| TikTok.NewTikTokDownloader | services/media/tiktok.py:23-25 | Raises exactly on an empty key; otherwise it keeps the key, the host and the HD flag. |
| TikTok.BuildTikTokQuery | services/media/tiktok.py:27-31 | "url" maps to the link, and `hd = 1` is present exactly when HD is on. |
| TikTok.ExtractMedia | services/media/tiktok.py:33-42 | Returned media always has extension ".mp4" and a truthy URL. |
| TikTok.HdPreferred | services/media/tiktok.py:35-38 | With HD on, a truthy `data.hdplay` wins. |
| TikTok.PlayFallback | services/media/tiktok.py:39-42 | Otherwise `data.play` is used, or None. With HD off, `hdplay` is never consulted. |
| TikTok.NoDataNoMedia | services/media/tiktok.py:34 | A missing or falsy "data" gives None. |
| TikTok.DownloadTikTok | services/media/tiktok.py:52-56 | When the quota is used up it returns None without calling the API and changes nothing. Otherwise it uses one unit, then downloads; the quota map becomes that of one `consume()`, so the other keys stay. |
| Instagram.FirstOf | services/media/instagram.py:17 | `results[0]` of a list is its head. |
| Instagram.ExtractMedia | services/media/instagram.py:11-23 | Returned media has a truthy URL and the extension ".jpeg" or ".mp4". |
| Instagram.NoStatusOrResults | services/media/instagram.py:12-16 | A falsy status, or a missing or empty result list, gives None. |
| Instagram.FirstResultDecides | services/media/instagram.py:17-23 | Only the first result counts. The extension is ".jpeg" exactly for type "image/jpeg", a missing type included in ".mp4". A missing or empty URL gives None. |
| Gemini.HistoryLine | services/gemini.py:133-141 | A message gives no line exactly when its content is missing or all whitespace; a line is never empty. |
| Gemini.FormatHistory | services/gemini.py:130-142 | The loop gives exactly the reference lines joined by "\n". |
| Gemini.HistoryConcat | services/gemini.py:133-141 | Messages are formatted one by one, in input order. |
| Gemini.HistoryMembers | services/gemini.py:137-141 | A line appears exactly when some message gives it. Its label is "Бот" for role "bot", else the truthy name, else "Пользователь", followed by ": " and the stripped content. |
| Gemini.HistoryEmptyIff | services/gemini.py:142 | The history is empty exactly when no message gives a line. |
| Gemini.Variants | services/gemini.py:69-72 | A name comes first among its own variants. |
| Gemini.AllCandidateNames | services/gemini.py:65-77 | The method is exactly `CandidateNames(configured)`. |
| Gemini.ExpandNames | services/gemini.py:73-76 | The loop over the candidates is exactly `Expanded`. |
| Gemini.ExpandedPrefixed | services/gemini.py:73-76 | Names already carrying "models/" gain no variant. |
| Gemini.CandidatesPrefixed | services/gemini.py:12-23 | Every declared candidate carries "models/". |
| Gemini.CandidateNamesOrder | services/gemini.py:65-77 | The configured model comes first, then its "models/" variant only when it is unprefixed, then every candidate in declared order. |
| Gemini.Available | services/gemini.py:60-62 | A model is available exactly when it is listed and supports generateContent. |
| Gemini.FindByName | services/gemini.py:99 | The match is an available model with that name, and none is found exactly when none has it. |
| Gemini.FirstCandidate | services/gemini.py:98-102 | The first candidate, in candidate order, that names an available model. |
| Gemini.ResolvedName | services/gemini.py:94-111 | There is no name exactly when no listed model is capable; any name is that of a capable model. When no candidate matches, it is the name of the first capable model. |
| Gemini.AvailableHead | services/gemini.py:95 | `available` keeps the listing order: its first entry is the first capable model of the listing. |
| Gemini.ListingOrderFallback | services/gemini.py:104-108 | When no candidate names a capable model, the first capable model in listing order is picked. |
| Gemini.CandidateBeatsListingOrder | services/gemini.py:98-108 | The earliest matching candidate wins over the listing order. |
| Gemini.AdminNote | services/gemini.py:153-159 | The admin note is empty exactly when no admin name is given. |
| Gemini.LastUserMessage | services/gemini.py:150-153 | The last message with role "user" and non-empty content, or none when there is none. |
| Gemini.PromptShape | services/gemini.py:149-169 | The template depends on the history text alone: the history template exactly when it is non-empty, otherwise the single template quoting the last user message or "". |
| Gemini.PromptChoice | services/gemini.py:149-169 | The history template is used exactly when some message gives a history line. The single template quotes the last user message, or "". The admin note is empty exactly when no admin name is given. |
| Gemini.ReplyText | services/gemini.py:183-184 | The reply is the stripped text, or "..." when that is empty; it is never empty. |
| Gemini.ReplyFrom | services/gemini.py:172-189 | A reply is never empty. |
| Gemini.FirstAnswerWins | services/gemini.py:176-184 | The first model that answers gives the reply. |
| Gemini.AllFailedFallback | services/gemini.py:185-189 | When every model fails, the fixed fallback text is returned. |
| Gemini.TryModels | services/gemini.py:176-189 | The loop is exactly `ReplyFrom`. |
| Gemini.FirstCandidateLoop | services/gemini.py:98-102 | The loop is exactly `FirstCandidate`. |
| Gemini.GeminiClient.constructor | services/gemini.py:51 | No model name is cached at the start. |
| Gemini.GeminiClient.ResolveModelName | services/gemini.py:80-111 | A cached name is returned without listing. A listing failure returns None and caches nothing. Otherwise the found name, if any, is cached. |
| Gemini.GeminiClient.GenerateReply | services/gemini.py:145-189 | The prompt is the one `PromptOf` picks. The reply comes from trying the resolved name first, then every candidate; it is never empty. The cached model name changes only when nothing was cached and the listing succeeded, and then becomes the resolved name if there is one. |
| Settings.Flags | utils/settings.py:48-68 | Each required field is flagged, by name, exactly when it is empty. |
| Settings.MissingUpToFlags | utils/settings.py:48-68 | The checks of the first k fields collect exactly the flagged names among them. |
| Settings.CheckField | utils/settings.py:49-50 | One check appends the name exactly when the value is empty. |
| Settings.CollectMissing | utils/settings.py:48-68 | The ten checks collect `MissingUpTo(s, 10)`. |
| Settings.Require | utils/settings.py:47-73 | The method is exactly `RequireResult`. |
| Settings.MissingMembers | utils/settings.py:48-68 | A name is missing exactly when it is required and its field is empty. |
| Settings.RequireIff | utils/settings.py:69-73 | `require()` returns the settings unchanged exactly when all ten fields are non-empty. Otherwise it raises `RuntimeError` listing every missing name, joined by ", ". |
| Settings.MissingOrder | utils/settings.py:49-68 | TOKEN, when missing, comes first, and DATABASE_PASSWORD, when missing, comes last. |
| Settings.UncheckedFields | utils/settings.py:18-23 | `gemini_model`, `db_port` and `chat_history_limit` are never checked. |
| VideoDownloader.NormalizeExtension | utils/video_downloader.py:4-5 | The output starts with "." and is at most one character longer. |
| VideoDownloader.DottedKept | utils/video_downloader.py:5 | An extension starting with "." is kept unchanged. |
| VideoDownloader.UndottedPrefixed | utils/video_downloader.py:5 | Otherwise "." is put in front, one character longer. |
| VideoDownloader.NormalizeIdempotent | utils/video_downloader.py:4-5 | Normalising twice equals normalising once. |
| LegacyStore.FirstChatFrom | database.py:34-35 | The scan finds the first row with that chat_id, and finds none exactly when no row has it. |
| LegacyStore.UserRowIds | database.py:47-55 | The listed row ids are exactly those of the user's rows, ascending. |
| LegacyStore.ChatUsernames | database.py:58-60 | `= NULL` matches no row, so an unregistered chat lists nothing. Otherwise the username of every row of that chat is listed, in id order, duplicates included. |
| LegacyStore.AtNames | database.py:62-63 | `'@' + name` raises `TypeError` exactly when a username is NULL. |
| LegacyStore.JoinAtStart | database.py:64 | The joined names are empty exactly when there are none, and otherwise start with '@'. |
| LegacyStore.UsernamesReplyFacts | database.py:57-67 | The reply is "" exactly when the chat has no user rows, unregistered chats included. It raises exactly on a NULL username. The error text is unreachable. |
| LegacyStore.UpdateUserEffect | database.py:86-92 | Every row of that user gets the new first name and username; other rows are unchanged. |
| LegacyStore.LegacyDataBase.constructor | database.py:4-24 | The store starts from the stored tables. |
| LegacyStore.LegacyDataBase.GetGroupChatId | database.py:33-38 | The internal id of a row with that chat_id, or None exactly when there is none. |
| LegacyStore.LegacyDataBase.CreateGroupChat | database.py:25-31 | Inserts and returns true exactly when no row has that chat_id; otherwise nothing changes. Unique chat ids stay unique. |
| LegacyStore.LegacyDataBase.CreateUser | database.py:77-84 | Refuses a second row for the same (user_id, registered chat). In an unregistered chat it inserts a new row on every call. |
| LegacyStore.LegacyDataBase.GetAllUserIds | database.py:47-55 | The loop lists exactly `UserRowIds`. |
| LegacyStore.LegacyDataBase.UpdateUser | database.py:86-92 | Always returns true, even with no such rows. Every row of the user is updated and nothing else. |
| LegacyStore.LegacyDataBase.GetAllUsernames | database.py:57-67 | The loop gives exactly `UsernamesReply`. |
| LegacyStore.AtNamesRaisesOnward | database.py:62-63 | The first NULL username already decides the `TypeError`. |

## Left out

- InsertGroup: the group-id counter advances only when a group row is kept. In Postgres a
  serial value is also consumed by an `ON CONFLICT DO NOTHING` insert that meets a conflict,
  and by an insert that is rolled back. No reply shows a group id, so no output differs.
- Telegram transport is not modelled: `reply_*`, `send_message`, the `ConversationHandler`
  wiring (app/handlers.py:231-244), app/bot.py and bot.py. The handlers' replies are
  outputs of the model, and a failing send is a parameter.
- The random replies are not modelled: app/handlers.py:50-53 and 114-115 draw on
  `randint` and `choice`.
- `findLink` (services/media/tiktok.py:9-13) is not modelled. Its answer, and the
  downloaders' answers (a `Py` value, since a download may raise), are fields of the
  `Env` that `Dispatch` receives.
- Dispatch does not link `handle_message` to the store model. The handler calls
  camelCase methods on `DataBase()` that the Postgres store does not define, so each
  store answer is an abstract input. As written, the handler also builds `DataBase()`
  without the `pool` argument that services/database.py:55 requires (app/handlers.py:59,
  70, 87, 94, 99, 106, 111, 128, 131, 136, 141, 152), so every store branch of the real
  handler raises TypeError before any store answer exists.
- Dispatch.HandlerRaises: a store call other than the group-usernames lookup is taken to
  return a value, because `Env` holds those answers as plain values. Two raises of the
  Postgres store are therefore not part of the handler's raise condition: a parse that
  raises IndexError on an upper-case "NAME:" in `create_group`, `add_users_to_group` and
  `delete_users_from_group` (services/database.py:235, 321, 371, before their `try`), and
  the TypeError of `"@" + None` in `get_all_usernames` for a linked user without a
  username (services/database.py:177). `Store.CreateGroupOp`, `Store.AddUsersOp`,
  `Store.DeleteUsersOp` and `Store.AllUsernamesOp` state both raises for the store itself.
- HTTP is not modelled. `Download` takes the response as a value: a transport error, or
  a status with an optional JSON body. `downloadVideo` and the root tiktok.py and
  instagram.py are file and network I/O.
- The connection pool and the module singletons (services/database.py:521-559) are not
  modelled. Any driver error is the `fail` flag.
- `get_user`, `get_user_by_username`, `get_group_chat`, `get_groups_for_chat`,
  `get_group_chats_for_user` and `get_group_by_chat_and_name` are not modelled as
  separate operations. Their lookups appear inside the modelled methods.
- Store.UserByName: `fetchone` without `ORDER BY` returns an unspecified row. The model
  takes the least id.
- Sorting: `ORDER BY username` is code-point order. Postgres collation is not modelled.
- PyStr.Lower: only ASCII letters are lowered. `str.lower` on other scripts is not
  modelled.
- PyStr.IsDigit: only ASCII digits count. The other Unicode digits that `str.isdigit`
  accepts in the `/say` reply are not modelled.
- The alembic migrations are not modelled as code. Only their keys, the
  `UNIQUE(group_chat_id, name)` constraint and the cascades appear, in
  `Store.ValidTables`.
- The Gemini SDK is not modelled: `genai.configure`, `list_models`, `GenerativeModel`,
  `lru_cache`, the async calls and the template wording. The model listing is an
  optional list, and generation is a function that may fail.
- Gemini.ReplyFrom: `generate` gives the same outcome to every attempt with the same
  name. The resolved name is tried again among the candidates
  (services/gemini.py:172-174), and such a retry, which could succeed after a transient
  failure, is not modelled.
- Gemini.GeminiClient.GenerateReply: it does not model the `get_settings().require()`
  calls inside the Gemini helpers. The configured model name and the bot name are
  parameters.
- UsageTracker persistence is not modelled: the JSON load and save of
  services/usage.py:18-27. The stored map is a constructor parameter, and saving is
  left out.
- `Settings.from_env` is not modelled: its environment reads, dotenv and int parsing.
- JSON numbers are integers: floats in API payloads are not modelled.
- Dispatch.HandleMessage: a message without text (`text` None) is not modelled. Every
  message carries a string.
- The legacy store's `getUserId` is not modelled, since no modelled operation uses it.
  Its row ids are positions in the table plus one.
