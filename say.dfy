/** The `/say` conversation: a user picks one of their known chats by number in a
    private chat, then sends the text the bot relays to that chat. The per-user
    `user_data` bag holds the two keys the conversation uses. */
module SayConversation {
  import opened Wrappers
  import opened PyStr

  /** A row of `get_group_chats_for_user`: the id and the (nullable) title. */
  datatype ChatInfo = ChatInfo(id: int, title: Option<string>)

  /** The conversation states; END is the handler's terminal value. */
  datatype ConvState = SelectChat | EnterMessage | End

  const PrivateOnly := "Команда /say доступна только в личных сообщениях."
  const NoKnownChats := "Я не знаю ни одного чата с вашим участием. Добавьте меня в чат и выполните /create chat и /create me."
  const ChatsNotFound := "Чаты не найдены. Вызовите /say заново."
  const EnterNumber := "Введите номер из списка."
  const NoSuchNumber := "Такого номера нет. Попробуйте ещё раз."
  const SendPrompt := "Отправьте сообщение, которое нужно переслать, или /cancel для отмены."
  const NoChatSelected := "Чат не выбран. Запустите /say заново."
  const SendFailed := "Не удалось отправить сообщение."
  const Cancelled := "Отменено."

  /** `chat.get('title') or chat['id']`. */
  function ChatLabel(chat: ChatInfo): string {
    if chat.title.Some? && chat.title.value != "" then chat.title.value else IntToString(chat.id)
  }

  /** The part of a menu line after its number: the chat's label and id. */
  function ChatEntry(chat: ChatInfo): string {
    ChatLabel(chat) + " (ID: " + IntToString(chat.id) + ")"
  }

  /** Menu line number `n`: "n. <label> (ID: <id>)". */
  function MenuLine(n: nat, chat: ChatInfo): string {
    (NatToString(n) + ". ") + ChatEntry(chat)
  }

  /** The numbered lines of the chat menu, starting at `start`. */
  function MenuLines(chats: seq<ChatInfo>, start: nat): (r: seq<string>)
    ensures |r| == |chats|
  {
    if chats == [] then []
    else [MenuLine(start, chats[0])] + MenuLines(chats[1..], start + 1)
  }

  /** The menu `say_start` sends. */
  function Menu(chats: seq<ChatInfo>): string {
    Join(["Выберите чат, ответив его номером:"] + MenuLines(chats, 1) + ["Введите номер или /cancel для отмены."], "\n")
  }

  /** `"Сообщение отправлено в " + label + "."`. */
  function SentNotice(chat: ChatInfo): string {
    "Сообщение отправлено в " + ChatLabel(chat) + "."
  }

  /** The chat a reply selects: the `n`-th, counting from 1, of the stored list. `None`
      when the stripped reply is not a string of digits or is out of range, "0" included. */
  function Selection(chats: seq<ChatInfo>, reply: string): (r: Option<ChatInfo>)
    ensures r.Some? <==> IsDecimal(Strip(reply)) && 1 <= DecimalValue(Strip(reply)) <= |chats|
    ensures r.Some? ==> r.value == chats[DecimalValue(Strip(reply)) - 1]
  {
    var choice := Strip(reply);
    if !IsDecimal(choice) then None
    else
      var index := DecimalValue(choice) - 1;
      if index < 0 || index >= |chats| then None else Some(chats[index])
  }

  /** The `user_data` bag of one user. */
  class UserData {
    var sayChats: Option<seq<ChatInfo>>
    var saySelectedChat: Option<ChatInfo>

    constructor ()
      ensures sayChats.None? && saySelectedChat.None?
    {
      sayChats, saySelectedChat := None, None;
    }

    /** `say_start`; `known` is what the store lists for the user. */
    method SayStart(chatType: string, known: seq<ChatInfo>) returns (next: ConvState, reply: string)
      modifies this
      ensures chatType != "private" ==> next == End && reply == PrivateOnly && unchanged(this)
      ensures chatType == "private" && known == [] ==> next == End && reply == NoKnownChats && unchanged(this)
      ensures chatType == "private" && known != [] ==>
        next == SelectChat && reply == Menu(known) &&
        sayChats == Some(known) && saySelectedChat == old(saySelectedChat)
    {
      if chatType != "private" {
        return End, PrivateOnly;
      }
      if known == [] {
        return End, NoKnownChats;
      }
      sayChats := Some(known);
      return SelectChat, Menu(known);
    }

    /** `say_choose_chat`: the reply `text` is a number from the menu. */
    method SayChooseChat(chatType: string, text: string) returns (next: ConvState, reply: Option<string>)
      modifies this
      ensures chatType != "private" ==> next == End && reply.None? && unchanged(this)
      ensures chatType == "private" && (old(sayChats).None? || old(sayChats).value == []) ==>
        next == End && reply == Some(ChatsNotFound) && unchanged(this)
      ensures chatType == "private" && old(sayChats).Some? && old(sayChats).value != [] ==>
        match Selection(old(sayChats).value, text)
        case None =>
          next == SelectChat && unchanged(this) &&
          reply == Some(if IsDecimal(Strip(text)) then NoSuchNumber else EnterNumber)
        case Some(chat) =>
          next == EnterMessage && reply == Some(SendPrompt) &&
          saySelectedChat == Some(chat) && sayChats == old(sayChats)
    {
      if chatType != "private" {
        return End, None;
      }
      var chats := sayChats;
      if chats.None? || chats.value == [] {
        return End, Some(ChatsNotFound);
      }
      var choice := Strip(text);
      if !IsDecimal(choice) {
        return SelectChat, Some(EnterNumber);
      }
      var index := DecimalValue(choice) - 1;
      if index < 0 || index >= |chats.value| {
        return SelectChat, Some(NoSuchNumber);
      }
      saySelectedChat := Some(chats.value[index]);
      return EnterMessage, Some(SendPrompt);
    }

    /** `say_receive_message`: relays `text`; `sendFails` is whether `send_message` raised.
        `sent` is the relayed message, if one was attempted. */
    method SayReceiveMessage(chatType: string, text: string, sendFails: bool)
      returns (next: ConvState, reply: Option<string>, sent: Option<(int, string)>)
      modifies this
      ensures next == End
      ensures chatType != "private" ==> reply.None? && sent.None? && unchanged(this)
      ensures chatType == "private" && old(saySelectedChat).None? ==>
        reply == Some(NoChatSelected) && sent.None? && unchanged(this)
      ensures chatType == "private" && old(saySelectedChat).Some? ==>
        sent == Some((old(saySelectedChat).value.id, text)) &&
        reply == Some(if sendFails then SendFailed else SentNotice(old(saySelectedChat).value)) &&
        sayChats.None? && saySelectedChat.None?
    {
      if chatType != "private" {
        return End, None, None;
      }
      var selected := saySelectedChat;
      if selected.None? {
        return End, Some(NoChatSelected), None;
      }
      sent := Some((selected.value.id, text));
      reply := Some(if sendFails then SendFailed else SentNotice(selected.value));
      saySelectedChat := None;
      sayChats := None;
      next := End;
    }

    /** `say_cancel`; `hasMessage` is whether the update carries a message to answer. */
    method SayCancel(hasMessage: bool) returns (next: ConvState, reply: Option<string>)
      modifies this
      ensures next == End && sayChats.None? && saySelectedChat.None?
      ensures reply == (if hasMessage then Some(Cancelled) else None)
    {
      reply := if hasMessage then Some(Cancelled) else None;
      saySelectedChat := None;
      sayChats := None;
      next := End;
    }
  }

  /** Line `k` of the menu numbered from `start` shows chat `k` under number `start + k`. */
  lemma {:induction false} MenuLineAt(chats: seq<ChatInfo>, start: nat, k: nat)
    requires k < |chats|
    ensures MenuLines(chats, start)[k] == MenuLine(start + k, chats[k])
    decreases k
  {
    var rest := MenuLines(chats[1..], start + 1);
    assert MenuLines(chats, start) == [MenuLine(start, chats[0])] + rest;
    if k > 0 {
      MenuLineAt(chats[1..], start + 1, k - 1);
      assert rest[k - 1] == MenuLine(start + 1 + (k - 1), chats[1..][k - 1]);
      assert start + 1 + (k - 1) == start + k && chats[1..][k - 1] == chats[k];
    }
  }

  /** The menu numbers its lines from 1: line `n` starts with the number `n`. */
  lemma MenuLineNumber(chats: seq<ChatInfo>, n: nat)
    requires 1 <= n <= |chats|
    ensures StartsWith(MenuLines(chats, 1)[n - 1], NatToString(n) + ". ")
  {
    MenuLineAt(chats, 1, n - 1);
    PrefixOfConcat(NatToString(n) + ". ", ChatEntry(chats[n - 1]));
  }

  /** Replying with that number selects the `n`-th chat. */
  lemma NumberSelects(chats: seq<ChatInfo>, n: nat)
    requires 1 <= n <= |chats|
    ensures Selection(chats, NatToString(n)) == Some(chats[n - 1])
  {
    var s := NatToString(n);
    assert !IsSpace(s[0]) && !IsSpace(s[|s| - 1]);
    StripUnpadded(s);
    NatToStringRoundTrip(n);
  }

  /** "0" never selects a chat. */
  lemma ZeroSelectsNothing(chats: seq<ChatInfo>)
    ensures Selection(chats, "0") == None
  {
    var s := "0";
    assert !IsSpace(s[0]);
    StripUnpadded(s);
    assert DecimalValue(s) == 0 by {
      assert s[..0] == [];
    }
  }
}
