/** The bot's configuration record and its `require` check. Reading the environment is
    not modelled: a `Settings` value is given. */
module Settings {
  import opened Wrappers
  import opened PyStr

  datatype Settings = Settings(
    telegramBotToken: string,
    tiktokApiKey: string,
    instagramApiKey: string,
    geminiApiKey: string,
    geminiModel: string,
    botName: string,
    botUsername: string,
    chatHistoryLimit: int,
    dbHost: string,
    dbPort: int,
    dbName: string,
    dbUser: string,
    dbPassword: string)

  /** The environment names of the required fields, in the order they are checked. */
  const RequiredNames: seq<string> := [
    "TOKEN", "TIKTOK_KEY", "INSTAGRAM_KEY", "GEMINI_API_KEY", "BOT_NAME",
    "BOT_USERNAME", "DATABASE_HOST", "DATABASE_NAME", "DATABASE_USER", "DATABASE_PASSWORD"
  ]

  const MissingPrefix := "Missing required environment variables: "

  /** The values of the required fields, in the same order. */
  function RequiredValues(s: Settings): (r: seq<string>)
    ensures |r| == |RequiredNames|
  {
    [s.telegramBotToken, s.tiktokApiKey, s.instagramApiKey, s.geminiApiKey, s.botName,
     s.botUsername, s.dbHost, s.dbName, s.dbUser, s.dbPassword]
  }

  /** For each required field in check order, its name when the field is empty. */
  function Flags(s: Settings): (r: seq<Option<string>>)
    ensures |r| == |RequiredNames|
    ensures forall i :: 0 <= i < |RequiredNames| ==>
      r[i] == if RequiredValues(s)[i] == "" then Some(RequiredNames[i]) else None
  {
    var values := RequiredValues(s);
    seq(|RequiredNames|, i requires 0 <= i < |RequiredNames| =>
      if values[i] == "" then Some(RequiredNames[i]) else None)
  }

  /** The names of the empty required fields, in check order. */
  function Missing(s: Settings): seq<string> {
    Present(Flags(s))
  }

  /** `missing` after `if not value: missing.append(name)`. */
  function Checked(missing: seq<string>, value: string, name: string): seq<string> {
    if value == "" then missing + [name] else missing
  }

  /** The names `require` has collected after checking the first `k` fields. */
  function MissingUpTo(s: Settings, k: nat): seq<string>
    requires k <= |RequiredNames|
  {
    if k == 0 then [] else Checked(MissingUpTo(s, k - 1), RequiredValues(s)[k - 1], RequiredNames[k - 1])
  }

  /** Checking field by field collects exactly the flagged names. */
  lemma {:induction false} MissingUpToFlags(s: Settings, k: nat)
    requires k <= |RequiredNames|
    ensures MissingUpTo(s, k) == Present(Flags(s)[..k])
  {
    if k > 0 {
      MissingUpToFlags(s, k - 1);
      assert Flags(s)[..k][..k - 1] == Flags(s)[..k - 1];
    }
  }

  /** What `require` does: the settings unchanged, or the error naming what is missing. */
  function RequireResult(s: Settings): Py<Settings> {
    var missing := Missing(s);
    if missing == [] then Value(s)
    else Raises(RuntimeError(MissingPrefix + Join(missing, ", ")))
  }

  /** One `if not value: missing.append(name)` step of `require`. */
  method CheckField(missing: seq<string>, value: string, name: string) returns (r: seq<string>)
    ensures r == Checked(missing, value, name)
  {
    r := missing;
    if value == "" {
      r := r + [name];
    }
  }

  /** The ten checks of `require`, in order. */
  method CollectMissing(s: Settings) returns (missing: seq<string>)
    ensures missing == MissingUpTo(s, |RequiredNames|)
  {
    missing := [];
    missing := CheckField(missing, s.telegramBotToken, "TOKEN");
    assert missing == MissingUpTo(s, 1);
    missing := CheckField(missing, s.tiktokApiKey, "TIKTOK_KEY");
    assert missing == MissingUpTo(s, 2);
    missing := CheckField(missing, s.instagramApiKey, "INSTAGRAM_KEY");
    assert missing == MissingUpTo(s, 3);
    missing := CheckField(missing, s.geminiApiKey, "GEMINI_API_KEY");
    assert missing == MissingUpTo(s, 4);
    missing := CheckField(missing, s.botName, "BOT_NAME");
    assert missing == MissingUpTo(s, 5);
    missing := CheckField(missing, s.botUsername, "BOT_USERNAME");
    assert missing == MissingUpTo(s, 6);
    missing := CheckField(missing, s.dbHost, "DATABASE_HOST");
    assert missing == MissingUpTo(s, 7);
    missing := CheckField(missing, s.dbName, "DATABASE_NAME");
    assert missing == MissingUpTo(s, 8);
    missing := CheckField(missing, s.dbUser, "DATABASE_USER");
    assert missing == MissingUpTo(s, 9);
    missing := CheckField(missing, s.dbPassword, "DATABASE_PASSWORD");
    assert missing == MissingUpTo(s, 10);
  }

  /** `require`. */
  method Require(s: Settings) returns (r: Py<Settings>)
    ensures r == RequireResult(s)
  {
    var missing := CollectMissing(s);
    MissingUpToFlags(s, |RequiredNames|);
    assert Flags(s)[..|RequiredNames|] == Flags(s);
    if missing != [] {
      return Raises(RuntimeError(MissingPrefix + Join(missing, ", ")));
    }
    return Value(s);
  }

  /** A name is reported exactly when its field is empty. */
  lemma MissingMembers(s: Settings, name: string)
    ensures name in Missing(s) <==>
      exists i :: 0 <= i < |RequiredNames| && RequiredNames[i] == name && RequiredValues(s)[i] == ""
  {
    var xs := Flags(s);
    PresentMembers(xs, name);
    if exists i :: 0 <= i < |xs| && xs[i] == Some(name) {
      var i :| 0 <= i < |xs| && xs[i] == Some(name);
      assert RequiredNames[i] == name && RequiredValues(s)[i] == "";
    }
  }

  /** `require` returns the settings unchanged exactly when all ten fields are non-empty,
      and otherwise raises RuntimeError listing the missing names joined by ", ". */
  lemma RequireIff(s: Settings)
    ensures RequireResult(s) == Value(s) <==> forall i :: 0 <= i < |RequiredNames| ==> RequiredValues(s)[i] != ""
    ensures RequireResult(s).Raises? ==>
      RequireResult(s).exc == RuntimeError(MissingPrefix + Join(Missing(s), ", ")) && Missing(s) != []
  {
    if exists i :: 0 <= i < |RequiredNames| && RequiredValues(s)[i] == "" {
      var i :| 0 <= i < |RequiredNames| && RequiredValues(s)[i] == "";
      MissingMembers(s, RequiredNames[i]);
    }
    if Missing(s) != [] {
      MissingMembers(s, Missing(s)[0]);
    }
  }

  /** The order is fixed: a missing token is named first, a missing password last. */
  lemma MissingOrder(s: Settings)
    ensures s.telegramBotToken == "" ==> Missing(s) != [] && Missing(s)[0] == "TOKEN"
    ensures s.dbPassword == "" ==> Missing(s) != [] && Missing(s)[|Missing(s)| - 1] == "DATABASE_PASSWORD"
  {
    var xs := Flags(s);
    MissingUpToFlags(s, 1);
    assert xs[..1] + xs[1..] == xs;
    PresentAppend(xs[..1], xs[1..]);
    MissingUpToFlags(s, 10);
    assert xs[..10] == xs;
  }

  /** The model name, the database port and the history limit are never checked. */
  lemma UncheckedFields(s: Settings, model: string, port: int, limit: int)
    ensures Missing(s.(geminiModel := model, dbPort := port, chatHistoryLimit := limit)) == Missing(s)
  {
    assert RequiredValues(s.(geminiModel := model, dbPort := port, chatHistoryLimit := limit)) == RequiredValues(s);
  }
}
