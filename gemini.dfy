/** The Gemini reply service without the SDK: how the chat history becomes prompt text,
    which model names are tried and in what order, how a model is picked from the listing
    (and cached), and which text becomes the reply. Listing the models and generating a
    reply are parameters. */
module Gemini {
  import opened Wrappers
  import opened PyStr

  const ModelPrefix := "models/"

  const ModelCandidates: seq<string> := [
    ModelPrefix + "gemini-2.0-flash",
    ModelPrefix + "gemini-2.0-flash-001",
    ModelPrefix + "gemini-2.0-flash-lite",
    ModelPrefix + "gemini-2.0-flash-lite-001",
    ModelPrefix + "gemini-flash-latest",
    ModelPrefix + "gemini-2.5-flash",
    ModelPrefix + "gemini-2.5-pro",
    ModelPrefix + "gemini-3-pro-preview"
  ]

  const Fallback := "Что-то сдохло у меня на проводах. Попробуй позже."
  const BotLabel := "Бот"
  const UserLabel := "Пользователь"

  /** Python truthiness of an optional string. */
  predicate Filled(s: Option<string>) {
    s.Some? && s.value != ""
  }

  /** `s or ""`. */
  function OrEmpty(s: Option<string>): string {
    if Filled(s) then s.value else ""
  }

  /** One message dict; a key that is absent is `None`. */
  datatype ChatMessage = ChatMessage(role: Option<string>, name: Option<string>, content: Option<string>)

  // ---------------------------------------------------------------------------------
  // _format_history

  function RoleLabel(m: ChatMessage): string {
    if m.role == Some("bot") then BotLabel
    else if Filled(m.name) then m.name.value
    else UserLabel
  }

  /** The history line of one message; none when the content is missing or blank. */
  function HistoryLine(m: ChatMessage): (r: Option<string>)
    ensures r.None? <==> forall k :: 0 <= k < |OrEmpty(m.content)| ==> IsSpace(OrEmpty(m.content)[k])
    ensures r.Some? ==> r.value != []
  {
    var content := Strip(OrEmpty(m.content));
    if content == "" then None else Some(RoleLabel(m) + ": " + content)
  }

  function HistoryLineSeq(messages: seq<ChatMessage>): (r: seq<Option<string>>)
    ensures |r| == |messages| && forall i :: 0 <= i < |messages| ==> r[i] == HistoryLine(messages[i])
  {
    seq(|messages|, i requires 0 <= i < |messages| => HistoryLine(messages[i]))
  }

  /** The lines `_format_history` collects, in message order. */
  function HistoryLines(messages: seq<ChatMessage>): seq<string> {
    Present(HistoryLineSeq(messages))
  }

  lemma HistoryLinesStep(messages: seq<ChatMessage>, n: nat)
    requires n < |messages|
    ensures HistoryLines(messages[..n + 1]) ==
      HistoryLines(messages[..n]) + (match HistoryLine(messages[n]) case None => [] case Some(l) => [l])
  {
    var xs := HistoryLineSeq(messages[..n + 1]);
    assert xs[..n] == HistoryLineSeq(messages[..n]);
  }

  /** `_format_history`. */
  method FormatHistory(messages: seq<ChatMessage>) returns (r: string)
    ensures r == Join(HistoryLines(messages), "\n")
  {
    var lines: seq<string> := [];
    var i := 0;
    while i < |messages|
      invariant 0 <= i <= |messages|
      invariant lines == HistoryLines(messages[..i])
    {
      HistoryLinesStep(messages, i);
      var content := Strip(OrEmpty(messages[i].content));
      if content != "" {
        var roleLabel;
        if messages[i].role == Some("bot") {
          roleLabel := BotLabel;
        } else {
          roleLabel := if Filled(messages[i].name) then messages[i].name.value else UserLabel;
        }
        lines := lines + [roleLabel + ": " + content];
      }
      i := i + 1;
    }
    assert messages[..i] == messages;
    r := Join(lines, "\n");
  }

  /** The history keeps message order: the lines of a concatenation are the lines of its
      parts, concatenated. */
  lemma HistoryConcat(a: seq<ChatMessage>, b: seq<ChatMessage>)
    ensures HistoryLines(a + b) == HistoryLines(a) + HistoryLines(b)
  {
    var xs, ys, zs := HistoryLineSeq(a), HistoryLineSeq(b), HistoryLineSeq(a + b);
    forall i | 0 <= i < |zs| ensures zs[i] == (xs + ys)[i] {
      if i < |a| {
        assert (a + b)[i] == a[i];
      } else {
        assert (a + b)[i] == b[i - |a|];
      }
    }
    assert zs == xs + ys;
    PresentAppend(xs, ys);
  }

  /** A line is in the history exactly when some message produces it; a bot message is
      labelled "Бот", any other by its name or "Пользователь", and the content is stripped. */
  lemma HistoryMembers(messages: seq<ChatMessage>, line: string)
    ensures line in HistoryLines(messages) <==> exists i :: 0 <= i < |messages| && HistoryLine(messages[i]) == Some(line)
    ensures forall m :: HistoryLine(m).Some? ==>
      HistoryLine(m).value ==
        (if m.role == Some("bot") then BotLabel else if Filled(m.name) then m.name.value else UserLabel) +
        ": " + Strip(OrEmpty(m.content))
  {
    var xs := HistoryLineSeq(messages);
    PresentMembers(xs, line);
    if exists i :: 0 <= i < |xs| && xs[i] == Some(line) {
      var i :| 0 <= i < |xs| && xs[i] == Some(line);
      assert HistoryLine(messages[i]) == Some(line);
    }
  }

  /** The formatted history is empty exactly when no message has non-blank content. */
  lemma HistoryEmptyIff(messages: seq<ChatMessage>)
    ensures Join(HistoryLines(messages), "\n") == "" <==> forall i :: 0 <= i < |messages| ==> HistoryLine(messages[i]).None?
  {
    var lines := HistoryLines(messages);
    var xs := HistoryLineSeq(messages);
    forall k | 0 <= k < |lines| ensures lines[k] != [] {
      PresentMembers(xs, lines[k]);
    }
    JoinEmpty(lines, "\n");
    if lines != [] {
      PresentMembers(xs, lines[0]);
    }
    if exists i :: 0 <= i < |messages| && HistoryLine(messages[i]).Some? {
      var i :| 0 <= i < |messages| && HistoryLine(messages[i]).Some?;
      PresentMembers(xs, HistoryLine(messages[i]).value);
    }
  }

  // ---------------------------------------------------------------------------------
  // _all_candidate_names

  function Variants(name: string): (r: seq<string>)
    ensures |r| >= 1 && r[0] == name
  {
    if StartsWith(name, ModelPrefix) then [name] else [name, ModelPrefix + name]
  }

  /** The names the candidate loop appends for `names`, in order. */
  function Expanded(names: seq<string>): seq<string> {
    if names == [] then [] else Expanded(names[..|names| - 1]) + Variants(names[|names| - 1])
  }

  function CandidateNames(configured: string): seq<string> {
    (if configured == "" then [] else Variants(configured)) + Expanded(ModelCandidates)
  }

  /** `_all_candidate_names`, with `configured` the `GEMINI_MODEL` setting. */
  method AllCandidateNames(configured: string) returns (names: seq<string>)
    ensures names == CandidateNames(configured)
  {
    names := [];
    if configured != "" {
      names := names + [configured];
      if !StartsWith(configured, ModelPrefix) {
        names := names + [ModelPrefix + configured];
      }
    }
    var rest := ExpandNames(ModelCandidates);
    names := names + rest;
  }

  /** The candidate loop of `_all_candidate_names`. */
  method ExpandNames(candidates: seq<string>) returns (names: seq<string>)
    ensures names == Expanded(candidates)
  {
    names := [];
    var i := 0;
    while i < |candidates|
      invariant 0 <= i <= |candidates|
      invariant names == Expanded(candidates[..i])
    {
      var name := candidates[i];
      assert candidates[..i + 1][..i] == candidates[..i];
      names := names + [name];
      if !StartsWith(name, ModelPrefix) {
        names := names + [ModelPrefix + name];
      }
      i := i + 1;
    }
    assert candidates[..i] == candidates;
  }

  lemma {:induction false} ExpandedPrefixed(names: seq<string>)
    requires forall k :: 0 <= k < |names| ==> StartsWith(names[k], ModelPrefix)
    ensures Expanded(names) == names
    decreases |names|
  {
    if names != [] {
      ExpandedPrefixed(names[..|names| - 1]);
    }
  }

  lemma CandidatesPrefixed()
    ensures forall k :: 0 <= k < |ModelCandidates| ==> StartsWith(ModelCandidates[k], ModelPrefix)
  {
    PrefixOfConcat(ModelPrefix, "gemini-2.0-flash");
    PrefixOfConcat(ModelPrefix, "gemini-2.0-flash-001");
    PrefixOfConcat(ModelPrefix, "gemini-2.0-flash-lite");
    PrefixOfConcat(ModelPrefix, "gemini-2.0-flash-lite-001");
    PrefixOfConcat(ModelPrefix, "gemini-flash-latest");
    PrefixOfConcat(ModelPrefix, "gemini-2.5-flash");
    PrefixOfConcat(ModelPrefix, "gemini-2.5-pro");
    PrefixOfConcat(ModelPrefix, "gemini-3-pro-preview");
  }

  /** The configured model comes first, followed by its "models/" form only when it lacks
      that prefix; then every candidate, once each, in declared order. */
  lemma CandidateNamesOrder(configured: string)
    ensures CandidateNames(configured) ==
      (if configured == "" then []
       else if StartsWith(configured, ModelPrefix) then [configured]
       else [configured, ModelPrefix + configured]) + ModelCandidates
  {
    CandidatesPrefixed();
    ExpandedPrefixed(ModelCandidates);
  }

  // ---------------------------------------------------------------------------------
  // _is_generative_model and _resolve_model_name

  /** A listed model; `supportedMethods` is `None` when the attribute is absent. */
  datatype ModelInfo = ModelInfo(name: string, supportedMethods: Option<seq<string>>)

  /** `_is_generative_model`: the model supports `generateContent`. */
  predicate IsGenerative(m: ModelInfo) {
    m.supportedMethods.Some? && "generateContent" in m.supportedMethods.value
  }

  /** The generative models of the listing, in listing order. */
  function Available(models: seq<ModelInfo>): (r: seq<ModelInfo>)
    ensures forall m :: m in r <==> m in models && IsGenerative(m)
    ensures |r| <= |models|
  {
    if models == [] then []
    else
      Available(models[..|models| - 1]) +
      (if IsGenerative(models[|models| - 1]) then [models[|models| - 1]] else [])
  }

  /** `next((m for m in available if m.name == candidate), None)`. */
  function FindByName(available: seq<ModelInfo>, candidate: string): (r: Option<ModelInfo>)
    ensures r.Some? ==> r.value in available && r.value.name == candidate
    ensures r.None? <==> forall m :: m in available ==> m.name != candidate
  {
    if available == [] then None
    else if available[0].name == candidate then Some(available[0])
    else FindByName(available[1..], candidate)
  }

  /** The first candidate that names an available model. */
  function FirstCandidate(candidates: seq<string>, available: seq<ModelInfo>): (r: Option<string>)
    ensures r.None? <==> forall k :: 0 <= k < |candidates| ==> FindByName(available, candidates[k]).None?
    ensures r.Some? ==> exists k :: (0 <= k < |candidates| && candidates[k] == r.value &&
      FindByName(available, r.value).Some? &&
      forall j :: 0 <= j < k ==> FindByName(available, candidates[j]).None?)
  {
    if candidates == [] then None
    else if FindByName(available, candidates[0]).Some? then Some(candidates[0])
    else
      var r := FirstCandidate(candidates[1..], available);
      assert r.Some? ==> exists k :: (0 <= k < |candidates| && candidates[k] == r.value &&
        FindByName(available, r.value).Some? &&
        forall j :: 0 <= j < k ==> FindByName(available, candidates[j]).None?) by {
        if r.Some? {
          var k :| 0 <= k < |candidates[1..]| && candidates[1..][k] == r.value &&
            FindByName(available, r.value).Some? &&
            forall j :: 0 <= j < k ==> FindByName(available, candidates[1..][j]).None?;
          assert candidates[k + 1] == r.value;
          forall j | 0 <= j < k + 1 ensures FindByName(available, candidates[j]).None? {
            if j > 0 { assert candidates[j] == candidates[1..][j - 1]; }
          }
        }
      }
      r
  }

  /** The model `_resolve_model_name` picks from a successful listing: the first candidate
      that names a generative model, else the first generative model, else none. */
  function ResolvedName(candidates: seq<string>, models: seq<ModelInfo>): (r: Option<string>)
    ensures r.None? <==> forall m :: m in models ==> !IsGenerative(m)
    ensures r.Some? ==> exists m :: m in models && IsGenerative(m) && m.name == r.value
    ensures FirstCandidate(candidates, Available(models)).None? && Available(models) != [] ==>
      r == Some(Available(models)[0].name)
  {
    var available := Available(models);
    match FirstCandidate(candidates, available)
    case Some(c) =>
      assert FindByName(available, c).value in models;
      Some(c)
    case None =>
      if available != [] then
        assert available[0] in available;
        Some(available[0].name)
      else None
  }

  /** When no candidate matches, the first generative model in listing order is picked. */
  lemma ListingOrderFallback(candidates: seq<string>, models: seq<ModelInfo>, k: nat)
    requires forall c, m :: c in candidates && m in models && IsGenerative(m) ==> m.name != c
    requires k < |models| && IsGenerative(models[k])
    requires forall j :: 0 <= j < k ==> !IsGenerative(models[j])
    ensures ResolvedName(candidates, models) == Some(models[k].name)
  {
    var available := Available(models);
    assert FirstCandidate(candidates, available).None? by {
      forall i | 0 <= i < |candidates| ensures FindByName(available, candidates[i]).None? {
        assert candidates[i] in candidates;
      }
    }
    assert models[k] in available;
    var k' := AvailableHead(models);
    assert k' == k;
  }

  /** The head of `Available(models)` is the first generative model of the listing. */
  lemma {:induction false} AvailableHead(models: seq<ModelInfo>) returns (k: nat)
    requires Available(models) != []
    ensures k < |models| && models[k] == Available(models)[0] && IsGenerative(models[k])
    ensures forall j :: 0 <= j < k ==> !IsGenerative(models[j])
    decreases |models|
  {
    var n := |models| - 1;
    var pre := models[..n];
    if Available(pre) != [] {
      k := AvailableHead(pre);
      assert models[k] == pre[k];
      forall j | 0 <= j < k ensures !IsGenerative(models[j]) {
        assert models[j] == pre[j];
      }
    } else {
      k := n;
      forall j | 0 <= j < n ensures !IsGenerative(models[j]) {
        assert models[j] == pre[j] && pre[j] in pre;
      }
    }
  }

  /** A configured or candidate name that is generative wins over listing order. */
  lemma CandidateBeatsListingOrder(candidates: seq<string>, models: seq<ModelInfo>, k: nat)
    requires k < |candidates|
    requires exists m :: m in models && IsGenerative(m) && m.name == candidates[k]
    requires forall j, m :: 0 <= j < k && m in models && IsGenerative(m) ==> m.name != candidates[j]
    ensures ResolvedName(candidates, models) == Some(candidates[k])
  {
    var available := Available(models);
    var m :| m in models && IsGenerative(m) && m.name == candidates[k];
    assert m in available;
    var r := FirstCandidate(candidates, available);
    assert r.Some?;
    var k' :| 0 <= k' < |candidates| && candidates[k'] == r.value &&
      FindByName(available, r.value).Some? &&
      forall j :: 0 <= j < k' ==> FindByName(available, candidates[j]).None?;
  }

  // ---------------------------------------------------------------------------------
  // generate_gemini_reply

  /** The body text for an admin; empty when there is no admin name. */
  function AdminNote(adminName: Option<string>): (r: string)
    ensures r == "" <==> !Filled(adminName)
  {
    if !Filled(adminName) then ""
    else
      var a := adminName.value;
      a + " — твой создатель и хозяин. Когда " + a + " что-то просит или спрашивает, " +
      "ты выполняешь его просьбу, отвечаешь на вопрос по существу, но в своём стиле. " +
      "Ты можешь язвить, но всегда делаешь то, что он говорит.\n"
  }

  predicate IsUserMessage(m: ChatMessage) {
    m.role == Some("user") && Filled(m.content)
  }

  /** `last_user_message`: the last message from the user with non-empty content. */
  function LastUserMessage(messages: seq<ChatMessage>): (r: Option<ChatMessage>)
    ensures r.None? <==> forall i :: 0 <= i < |messages| ==> !IsUserMessage(messages[i])
    ensures r.Some? ==> exists i :: (0 <= i < |messages| && messages[i] == r.value && IsUserMessage(r.value) &&
      forall j :: i < j < |messages| ==> !IsUserMessage(messages[j]))
  {
    if messages == [] then None
    else if IsUserMessage(messages[|messages| - 1]) then Some(messages[|messages| - 1])
    else
      var init := messages[..|messages| - 1];
      var r := LastUserMessage(init);
      assert forall i :: 0 <= i < |init| ==> init[i] == messages[i];
      r
  }

  /** The template a reply uses, with the values substituted into it (template wording
      is not modelled). */
  datatype Prompt =
    | HistoryPrompt(botName: string, adminNote: string, history: string)
    | SinglePrompt(botName: string, adminNote: string, userMessage: string)

  function PromptOf(botName: string, messages: seq<ChatMessage>, history: string, adminName: Option<string>): Prompt {
    if history != "" then HistoryPrompt(botName, AdminNote(adminName), history)
    else
      SinglePrompt(botName, AdminNote(adminName),
        match LastUserMessage(messages) case Some(m) => m.content.value case None => "")
  }

  /** The template follows the history text alone: the history template exactly when it
      is non-empty, otherwise the single-message one quoting the last user message. */
  lemma PromptShape(botName: string, messages: seq<ChatMessage>, history: string, adminName: Option<string>)
    ensures var p := PromptOf(botName, messages, history, adminName);
      (p.HistoryPrompt? <==> history != "") &&
      (p.SinglePrompt? ==> p.userMessage == if LastUserMessage(messages).Some? then LastUserMessage(messages).value.content.value else "") &&
      (p.HistoryPrompt? ==> p.history == history) &&
      p.botName == botName && (p.adminNote == "" <==> !Filled(adminName))
  {
  }

  /** The history template is used exactly when some message has non-blank content; the
      single-message template quotes the last user message, or nothing. */
  lemma PromptChoice(botName: string, messages: seq<ChatMessage>, adminName: Option<string>)
    ensures var p := PromptOf(botName, messages, Join(HistoryLines(messages), "\n"), adminName);
      (p.HistoryPrompt? <==> exists i :: 0 <= i < |messages| && HistoryLine(messages[i]).Some?) &&
      (p.SinglePrompt? ==> p.userMessage == if LastUserMessage(messages).Some? then LastUserMessage(messages).value.content.value else "") &&
      (p.HistoryPrompt? ==> p.history == Join(HistoryLines(messages), "\n")) &&
      p.botName == botName && (p.adminNote == "" <==> !Filled(adminName))
  {
    HistoryEmptyIff(messages);
    PromptShape(botName, messages, Join(HistoryLines(messages), "\n"), adminName);
  }

  /** What one generation attempt did: raised, or answered with an optional text. */
  datatype Generation = Failed | Answered(text: Option<string>)

  /** `text.strip() or "..."`, with a missing text read as "". */
  function ReplyText(text: Option<string>): (r: string)
    ensures r != ""
    ensures r == "..." || r == Strip(OrEmpty(text))
  {
    var t := Strip(OrEmpty(text));
    if t == "" then "..." else t
  }

  /** The reply after trying `names` in order: the first attempt that does not raise
      gives the reply; if every attempt raises, the fallback text. Empty names are skipped. */
  function ReplyFrom(names: seq<string>, generate: string -> Generation): (r: string)
    ensures r != ""
  {
    if names == [] then Fallback
    else if names[0] == "" || generate(names[0]).Failed? then ReplyFrom(names[1..], generate)
    else ReplyText(generate(names[0]).text)
  }

  lemma {:induction false} FirstAnswerWins(names: seq<string>, generate: string -> Generation, k: nat)
    requires k < |names| && names[k] != "" && generate(names[k]).Answered?
    requires forall j :: 0 <= j < k ==> names[j] == "" || generate(names[j]).Failed?
    ensures ReplyFrom(names, generate) == ReplyText(generate(names[k]).text)
    decreases k
  {
    if k > 0 {
      assert forall j :: 0 <= j < k - 1 ==> names[1..][j] == names[j + 1];
      FirstAnswerWins(names[1..], generate, k - 1);
    }
  }

  lemma {:induction false} AllFailedFallback(names: seq<string>, generate: string -> Generation)
    requires forall j :: 0 <= j < |names| ==> names[j] == "" || generate(names[j]).Failed?
    ensures ReplyFrom(names, generate) == Fallback
    decreases |names|
  {
    if names != [] {
      assert forall j :: 0 <= j < |names| - 1 ==> names[1..][j] == names[j + 1];
      AllFailedFallback(names[1..], generate);
    }
  }

  /** The names tried for a reply: the resolved model, when there is one, then the
      candidate list. */
  function TriedNames(resolved: Option<string>, configured: string): seq<string> {
    (if Filled(resolved) then [resolved.value] else []) + CandidateNames(configured)
  }

  /** What the resolution returns for a cache value and a listing outcome. */
  function ResolveOutcome(cached: Option<string>, configured: string, listing: Option<seq<ModelInfo>>): Option<string> {
    if Filled(cached) then cached
    else if listing.None? then None
    else ResolvedName(CandidateNames(configured), listing.value)
  }

  /** The loop of `generate_gemini_reply` over the model names. */
  method TryModels(names: seq<string>, generate: string -> Generation) returns (reply: string)
    ensures reply == ReplyFrom(names, generate)
  {
    var i := 0;
    while i < |names|
      invariant 0 <= i <= |names|
      invariant ReplyFrom(names, generate) == ReplyFrom(names[i..], generate)
    {
      assert names[i..][1..] == names[i + 1..];
      if names[i] != "" {
        var outcome := generate(names[i]);
        if outcome.Answered? {
          return ReplyText(outcome.text);
        }
      }
      i := i + 1;
    }
    return Fallback;
  }

  /** The candidate loop of `_resolve_model_name`. */
  method FirstCandidateLoop(candidates: seq<string>, available: seq<ModelInfo>) returns (r: Option<string>)
    ensures r == FirstCandidate(candidates, available)
  {
    var i := 0;
    while i < |candidates|
      invariant 0 <= i <= |candidates|
      invariant FirstCandidate(candidates, available) == FirstCandidate(candidates[i..], available)
    {
      assert candidates[i..][1..] == candidates[i + 1..];
      var found := FindByName(available, candidates[i]);
      if found.Some? {
        return Some(found.value.name);
      }
      i := i + 1;
    }
    return None;
  }

  /** The module's state: the cached model name. */
  class GeminiClient {
    var resolvedModelName: Option<string>

    constructor ()
      ensures resolvedModelName.None?
    {
      resolvedModelName := None;
    }

    /** `_resolve_model_name`; `listing` is what `list_models` returned, `None` when it
        raised. */
    method ResolveModelName(configured: string, listing: Option<seq<ModelInfo>>) returns (r: Option<string>)
      modifies this
      ensures r == ResolveOutcome(old(resolvedModelName), configured, listing)
      ensures Filled(old(resolvedModelName)) ==> unchanged(this)
      ensures !Filled(old(resolvedModelName)) && listing.None? ==> r.None? && unchanged(this)
      ensures !Filled(old(resolvedModelName)) && listing.Some? ==>
        resolvedModelName == (if r.Some? then r else old(resolvedModelName))
    {
      if Filled(resolvedModelName) {
        return resolvedModelName;
      }
      if listing.None? {
        return None;
      }
      var available := Available(listing.value);
      var candidates := AllCandidateNames(configured);
      var found := FirstCandidateLoop(candidates, available);
      if found.Some? {
        resolvedModelName := found;
        return resolvedModelName;
      }
      if available != [] {
        resolvedModelName := Some(available[0].name);
        return resolvedModelName;
      }
      return None;
    }

    /** `generate_gemini_reply`; `generate` is what a generation attempt with a model
        name does with this prompt. */
    method GenerateReply(botName: string, configured: string, messages: seq<ChatMessage>,
                         adminName: Option<string>, listing: Option<seq<ModelInfo>>,
                         generate: string -> Generation)
      returns (prompt: Prompt, reply: string)
      modifies this
      ensures prompt == PromptOf(botName, messages, Join(HistoryLines(messages), "\n"), adminName)
      ensures reply == ReplyFrom(TriedNames(ResolveOutcome(old(resolvedModelName), configured, listing), configured), generate)
      ensures reply != ""
      ensures Filled(old(resolvedModelName)) || listing.None? ==> unchanged(this)
      ensures !Filled(old(resolvedModelName)) && listing.Some? ==>
        var outcome := ResolveOutcome(old(resolvedModelName), configured, listing);
        resolvedModelName == (if outcome.Some? then outcome else old(resolvedModelName))
    {
      var history := FormatHistory(messages);
      prompt := PromptOf(botName, messages, history, adminName);
      var resolved := ResolveModelName(configured, listing);
      var names := if Filled(resolved) then [resolved.value] else [];
      var candidates := AllCandidateNames(configured);
      names := names + candidates;
      reply := TryModels(names, generate);
    }
  }
}
