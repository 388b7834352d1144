/** The text commands that manage mention groups: `name:<group> users:<u1>,<u2>`
    behind a command prefix such as `/create group`. Parsing fails closed: one bad
    name or username rejects the whole command. */
module GroupCommands {
  import opened Wrappers
  import opened PyStr

  /** One character of `[A-Za-z0-9_]`. */
  predicate IsNameChar(c: char) {
    ('A' <= c <= 'Z') || ('a' <= c <= 'z') || ('0' <= c <= '9') || c == '_'
  }

  /** A full match of `^[A-Za-z0-9_]{1,255}$`, the pattern for both group names and usernames. */
  predicate MatchesName(s: string) {
    1 <= |s| <= 255 && forall k :: 0 <= k < |s| ==> IsNameChar(s[k])
  }

  datatype GroupCommand = GroupCommand(name: string, users: seq<string>)

  /** `_sanitize_username`: strip whitespace, then every leading '@'; empty becomes None. */
  function SanitizeUsername(username: Option<string>): (r: Option<string>)
    ensures r.Some? ==> r.value != [] && r.value[0] != '@'
  {
    if username.None? || username.value == "" then None
    else
      var s := LStripChar(Strip(username.value), '@');
      if s == "" then None else Some(s)
  }

  /** Each token of a `users:` list after sanitising. */
  function Sanitized(tokens: seq<string>): (r: seq<Option<string>>)
    ensures |r| == |tokens| && forall i :: 0 <= i < |tokens| ==> r[i] == SanitizeUsername(Some(tokens[i]))
  {
    seq(|tokens|, i requires 0 <= i < |tokens| => SanitizeUsername(Some(tokens[i])))
  }

  /** The sanitised, non-empty tokens of a `users:` list, in their original order. */
  function Kept(tokens: seq<string>): seq<string> {
    Present(Sanitized(tokens))
  }

  /** The users of a command: all kept tokens, provided every one of them is a valid username. */
  function UsersOf(tokens: seq<string>): Option<seq<string>> {
    var kept := Kept(tokens);
    if forall k :: 0 <= k < |kept| ==> MatchesName(kept[k]) then Some(kept) else None
  }

  /** `parse_group_command`, as a function of the text. Python raises IndexError when the
      text starts with "name:" only up to case and holds no exact "name:" before "users:". */
  function GroupCommandOf(command: string): Py<Option<GroupCommand>> {
    var cleaned := Strip(command);
    if !StartsWith(Lower(cleaned), "name:") then Value(None)
    else
      var (nameSection, _, usersSection) := Partition(cleaned, "users:");
      match Find(nameSection, "name:")
      case None => Raises(IndexError)
      case Some(i) =>
        var name := Strip(nameSection[i + 5..]);
        if !MatchesName(name) then Value(None)
        else if usersSection == "" then Value(Some(GroupCommand(name, [])))
        else
          match UsersOf(Split(usersSection, ','))
          case None => Value(None)
          case Some(users) => Value(Some(GroupCommand(name, users)))
  }

  /** `parse_group_command` as the source writes it: a loop that appends each sanitised
      username and gives up at the first invalid one. */
  method ParseGroupCommand(command: string) returns (r: Py<Option<GroupCommand>>)
    ensures r == GroupCommandOf(command)
  {
    var cleaned := Strip(command);
    if !StartsWith(Lower(cleaned), "name:") {
      return Value(None);
    }
    var parts := Partition(cleaned, "users:");
    var nameSection, usersSection := parts.0, parts.2;
    var at := Find(nameSection, "name:");
    if at.None? {
      return Raises(IndexError);
    }
    var name := Strip(nameSection[at.value + 5..]);
    if !MatchesName(name) {
      return Value(None);
    }
    if usersSection == "" {
      return Value(Some(GroupCommand(name, [])));
    }
    var users := CollectUsers(Split(usersSection, ','));
    if users.None? {
      return Value(None);
    }
    return Value(Some(GroupCommand(name, users.value)));
  }

  /** The loop of `parse_group_command` over the comma-separated tokens. */
  method CollectUsers(tokens: seq<string>) returns (r: Option<seq<string>>)
    ensures r == UsersOf(tokens)
  {
    var users: seq<string> := [];
    var i := 0;
    while i < |tokens|
      invariant 0 <= i <= |tokens|
      invariant users == Kept(tokens[..i])
      invariant forall k :: 0 <= k < |users| ==> MatchesName(users[k])
    {
      KeptStep(tokens, i);
      var username := SanitizeUsername(Some(tokens[i]));
      if username.Some? {
        if !MatchesName(username.value) {
          BadTokenRejects(tokens, i);
          return None;
        }
        users := users + [username.value];
      }
      i := i + 1;
    }
    assert tokens[..i] == tokens;
    return Some(users);
  }

  /** One token that sanitises to an invalid username rejects the whole list. */
  lemma BadTokenRejects(tokens: seq<string>, i: nat)
    requires i < |tokens|
    requires SanitizeUsername(Some(tokens[i])).Some? && !MatchesName(SanitizeUsername(Some(tokens[i])).value)
    ensures UsersOf(tokens).None?
  {
    KeptMembers(tokens, SanitizeUsername(Some(tokens[i])).value);
  }

  lemma KeptMembers(tokens: seq<string>, u: string)
    ensures u in Kept(tokens) <==> exists i :: 0 <= i < |tokens| && SanitizeUsername(Some(tokens[i])) == Some(u)
  {
    var xs := Sanitized(tokens);
    PresentMembers(xs, u);
    if exists i :: 0 <= i < |xs| && xs[i] == Some(u) {
      var i :| 0 <= i < |xs| && xs[i] == Some(u);
      assert SanitizeUsername(Some(tokens[i])) == Some(u);
    }
  }

  /** The sanitised tokens before index `n` come first among the kept ones. */
  lemma KeptStep(tokens: seq<string>, n: nat)
    requires n < |tokens|
    ensures Kept(tokens[..n + 1]) ==
      Kept(tokens[..n]) + (match SanitizeUsername(Some(tokens[n])) case None => [] case Some(u) => [u])
  {
    var xs := Sanitized(tokens[..n + 1]);
    assert xs[..n] == Sanitized(tokens[..n]);
  }

  lemma KeptPrefix(tokens: seq<string>, n: nat)
    requires n <= |tokens|
    ensures Kept(tokens) == Kept(tokens[..n]) + Present(Sanitized(tokens)[n..])
  {
    var xs := Sanitized(tokens);
    assert xs[..n] == Sanitized(tokens[..n]);
    assert xs == xs[..n] + xs[n..];
    PresentAppend(xs[..n], xs[n..]);
  }

  /** Fail closed: the user list is rejected exactly when some token sanitises to a
      non-empty string that is not a valid username; tokens that sanitise to nothing are dropped. */
  lemma UsersRejectedIff(tokens: seq<string>)
    ensures UsersOf(tokens).None? <==>
      exists i :: 0 <= i < |tokens| && SanitizeUsername(Some(tokens[i])).Some? &&
                  !MatchesName(SanitizeUsername(Some(tokens[i])).value)
  {
    var kept := Kept(tokens);
    if UsersOf(tokens).None? {
      var k :| 0 <= k < |kept| && !MatchesName(kept[k]);
      KeptMembers(tokens, kept[k]);
    }
    if exists i :: 0 <= i < |tokens| && SanitizeUsername(Some(tokens[i])).Some? &&
                   !MatchesName(SanitizeUsername(Some(tokens[i])).value) {
      var i :| 0 <= i < |tokens| && SanitizeUsername(Some(tokens[i])).Some? &&
               !MatchesName(SanitizeUsername(Some(tokens[i])).value);
      var u := SanitizeUsername(Some(tokens[i])).value;
      KeptMembers(tokens, u);
      var k :| 0 <= k < |kept| && kept[k] == u;
    }
  }

  /** Every user of an accepted list is a valid username without a leading '@', and
      each one comes from a token of the list. */
  lemma AcceptedUsersWellFormed(tokens: seq<string>)
    requires UsersOf(tokens).Some?
    ensures forall u :: u in UsersOf(tokens).value ==>
      MatchesName(u) && u[0] != '@' &&
      exists i :: 0 <= i < |tokens| && SanitizeUsername(Some(tokens[i])) == Some(u)
  {
    forall u | u in UsersOf(tokens).value
      ensures MatchesName(u) && u[0] != '@'
      ensures exists i :: 0 <= i < |tokens| && SanitizeUsername(Some(tokens[i])) == Some(u)
    {
      KeptMembers(tokens, u);
    }
  }

  /** A command is found only behind a case-insensitive "name:" prefix, and then with a
      valid group name and valid usernames. */
  lemma ParsedCommandWellFormed(command: string)
    requires GroupCommandOf(command).Value? && GroupCommandOf(command).value.Some?
    ensures StartsWith(Lower(Strip(command)), "name:")
    ensures MatchesName(GroupCommandOf(command).value.value.name)
    ensures forall u :: u in GroupCommandOf(command).value.value.users ==> MatchesName(u) && u[0] != '@'
  {
    var cleaned := Strip(command);
    var (nameSection, _, usersSection) := Partition(cleaned, "users:");
    if usersSection != "" {
      AcceptedUsersWellFormed(Split(usersSection, ','));
    }
  }

  /** The parser raises exactly when the case-insensitive prefix test passes but the text
      before the first "users:" holds no exact "name:". */
  lemma ParseRaisesIff(command: string)
    ensures GroupCommandOf(command).Raises? <==>
      StartsWith(Lower(Strip(command)), "name:") &&
      !Contains(Partition(Strip(command), "users:").0, "name:")
  {
  }

  /** In a text that starts with "name:", "users:" cannot start among those five characters. */
  lemma NameBeforeUsers(cleaned: string)
    requires StartsWith(cleaned, "name:")
    ensures OccursAt(Partition(cleaned, "users:").0, "name:", 0)
  {
    var front := Partition(cleaned, "users:").0;
    match Find(cleaned, "users:")
    case None =>
    case Some(i) =>
      UsersAfterName(cleaned, i);
      assert front == cleaned[..i];
      assert front[..5] == cleaned[..5];
  }

  /** "users:" cannot occur inside a leading "name:". */
  lemma UsersAfterName(cleaned: string, i: nat)
    requires StartsWith(cleaned, "name:") && OccursAt(cleaned, "users:", i)
    ensures i >= 5
  {
    assert cleaned[i] == cleaned[i..i + 6][0] == 'u';
    forall k | 0 <= k < 5 ensures cleaned[k] != 'u' {
      assert cleaned[k] == cleaned[..5][k];
    }
  }

  lemma LowerKeepsLowerPrefix(s: string)
    requires StartsWith(s, "name:")
    ensures StartsWith(Lower(s), "name:")
  {
    forall k | 0 <= k < 5 ensures Lower(s)[k] == "name:"[k] {
      assert s[k] == s[..5][k];
    }
  }

  /** Text whose stripped form starts with exactly "name:" never makes the parser raise. */
  lemma ExactPrefixNeverRaises(command: string)
    requires StartsWith(Strip(command), "name:")
    ensures GroupCommandOf(command).Value?
  {
    ParseRaisesIff(command);
    NameBeforeUsers(Strip(command));
  }

  lemma UpperCaseNameFacts(c: string)
    requires c == "NAME:team"
    ensures Strip(c) == c && StartsWith(Lower(c), "name:")
    ensures !Contains(c, "users:") && !Contains(c, "name:")
  {
    StripUnpadded(c);
    assert Lower(c)[..5] == "name:";
    assert 'u' !in c && 'n' !in c;
    AbsentFirstChar(c, "users:");
    AbsentFirstChar(c, "name:");
  }

  /** The upper-case spelling passes the case-insensitive prefix test but has no exact "name:". */
  lemma UpperCaseNameRaises()
    ensures GroupCommandOf("NAME:team").Raises?
  {
    var c := "NAME:team";
    UpperCaseNameFacts(c);
    ParseRaisesIff(c);
  }

  /** `DataBase._extract_group_command`: drop every '@', strip, require the prefix up to
      case, then parse what follows it. */
  function ExtractGroupCommand(command: string, prefix: string): Py<Option<GroupCommand>> {
    var cleaned := Strip(RemoveAll(command, '@'));
    if !StartsWith(Lower(cleaned), prefix) then Value(None)
    else GroupCommandOf(Strip(cleaned[|prefix|..]))
  }

  /** `DataBase._extract_group_name`: as above, then the first "name:" (wherever it is)
      is removed and the rest must be a valid group name. */
  function ExtractGroupName(command: string, prefix: string): (r: Option<string>)
    ensures r.Some? ==> MatchesName(r.value)
  {
    var cleaned := Strip(RemoveAll(command, '@'));
    if !StartsWith(Lower(cleaned), prefix) then None
    else
      var name := Strip(ReplaceFirst(Strip(cleaned[|prefix|..]), "name:"));
      if MatchesName(name) then Some(name) else None
  }

  lemma RemoveAllIdempotent(s: string, c: char)
    ensures RemoveAll(RemoveAll(s, c), c) == RemoveAll(s, c)
  {
  }

  /** '@' characters carry no meaning in a command: removing them first changes nothing. */
  lemma ExtractIgnoresAtSigns(command: string, prefix: string)
    ensures ExtractGroupCommand(RemoveAll(command, '@'), prefix) == ExtractGroupCommand(command, prefix)
    ensures ExtractGroupName(RemoveAll(command, '@'), prefix) == ExtractGroupName(command, prefix)
  {
    RemoveAllIdempotent(command, '@');
  }

  /** A command found by the extractor carries a valid name and valid users, and the
      text (with '@' removed and stripped) starts with the prefix up to case. */
  lemma ExtractedCommandWellFormed(command: string, prefix: string)
    requires ExtractGroupCommand(command, prefix).Value? && ExtractGroupCommand(command, prefix).value.Some?
    ensures StartsWith(Lower(Strip(RemoveAll(command, '@'))), prefix)
    ensures MatchesName(ExtractGroupCommand(command, prefix).value.value.name)
    ensures forall u :: u in ExtractGroupCommand(command, prefix).value.value.users ==> MatchesName(u)
  {
    var cleaned := Strip(RemoveAll(command, '@'));
    ParsedCommandWellFormed(Strip(cleaned[|prefix|..]));
  }

  lemma TrailingMarkerFacts(payload: string)
    requires payload == " teamname:"
    ensures Strip(payload) == "teamname:"
    ensures ReplaceFirst("teamname:", "name:") == "team"
  {
    assert LStrip(payload) == "teamname:";
    StripUnpadded("teamname:");
    assert "team" + "name:" + "" == "teamname:";
    ReplaceFirstAfter("team", "name:", "");
  }

  lemma TrailingMarkerName(t: string)
    requires t == "team"
    ensures Strip(t) == t && MatchesName(t)
  {
    StripUnpadded(t);
  }

  /** "name:" is removed wherever it first appears, so it may trail the group name:
      "/delete group teamname:" deletes the group "team". */
  lemma NameMarkerMayTrail(prefix: string, payload: string)
    requires prefix == "/delete group" && payload == " teamname:"
    ensures ExtractGroupName(prefix + payload, prefix) == Some("team")
  {
    var c := prefix + payload;
    TrailingMarkerCommand(prefix, payload);
    assert c[|prefix|..] == payload;
    TrailingMarkerFacts(payload);
    TrailingMarkerName("team");
  }

  lemma TrailingMarkerCommand(prefix: string, payload: string)
    requires prefix == "/delete group" && payload == " teamname:"
    ensures Strip(RemoveAll(prefix + payload, '@')) == prefix + payload
    ensures StartsWith(Lower(prefix + payload), prefix)
  {
    var c := prefix + payload;
    assert '@' !in prefix && '@' !in payload;
    assert '@' !in c;
    assert c[0] == prefix[0] && c[|c| - 1] == payload[|payload| - 1];
    StripUnpadded(c);
    LowerConcat(prefix, payload);
    DeletePrefixLower(prefix);
    PrefixOfConcat(prefix, Lower(payload));
  }

  lemma DeletePrefixLower(prefix: string)
    requires prefix == "/delete group"
    ensures Lower(prefix) == prefix
  {
    forall k | 0 <= k < |prefix| ensures LowerChar(prefix[k]) == prefix[k] {
    }
  }
}
