/**
 * The chat webhook (`POST /api/webhook`): the trimmed message text selects
 * one of three commands; `/newcontent` stores a content item, and every
 * command answers the chat. The HTTP reply is always status 200.
 */
module Webhook {
  import opened Wrappers
  import opened JsText
  import Schema
  import Store

  const NewContentCommand: string := "/newcontent"
  const IdCommand: string := "/id"
  /** The title used when `/newcontent` comes with no text. */
  const DefaultTitle: string := "بدون عنوان"
  const SavedPrefix: string := "✅ محتوا ثبت شد: "
  const ChatIdPrefix: string := "Chat ID: "
  const HelpReply: string := "دستور دریافت شد ✅ ( /newcontent یا /id )"

  datatype Chat = Chat(id: int)

  /** `req.body.message`: the chat it came from, when present, and its text, when present. */
  datatype Message = Message(chat: Option<Chat>, text: Option<string>)

  /** What the handler does for one update. */
  datatype Action =
    | Nothing
    | ReplyOnly(chatId: int, text: string)
    | InsertAndReply(chatId: int, title: string, text: string)

  /** A message handed to the chat transport. */
  datatype Reply = Reply(chatId: int, text: string)

  /** `(msg.text || "").trim()`. */
  function CommandText(m: Message): string {
    Trim(m.text.GetOr(""))
  }

  /**
   * `text.replace("/newcontent", "").trim() || "بدون عنوان"`: for a command
   * text, the rest after the command word, trimmed, or the default title.
   */
  function ContentTitle(text: string): (title: string)
    ensures title != []
    ensures StartsWith(text, NewContentCommand) ==>
      title == (if Trim(text[|NewContentCommand|..]) == [] then DefaultTitle else Trim(text[|NewContentCommand|..]))
  {
    var rest := Trim(ReplaceFirst(text, NewContentCommand, ""));
    assert StartsWith(text, NewContentCommand) ==>
      ReplaceFirst(text, NewContentCommand, "") == text[|NewContentCommand|..] by {
      if StartsWith(text, NewContentCommand) {
        ReplacePrefix(text, NewContentCommand);
      }
    }
    if rest == [] then DefaultTitle else rest
  }

  /**
   * The command dispatch. No message, or a message without a chat (reading
   * `msg.chat.id` throws before anything is done), leads to nothing.
   */
  function Classify(update: Option<Message>): (a: Action)
    ensures a.Nothing? <==> update.None? || update.value.chat.None?
    ensures !a.Nothing? ==> a.chatId == update.value.chat.value.id
    ensures a.InsertAndReply? <==> !a.Nothing? && StartsWith(CommandText(update.value), NewContentCommand)
    ensures a.InsertAndReply? ==>
      a.title == ContentTitle(CommandText(update.value)) && a.text == SavedPrefix + a.title
    ensures a.ReplyOnly? ==>
      a.text == (if CommandText(update.value) == IdCommand then ChatIdPrefix + IntText(a.chatId) else HelpReply)
  {
    match update
    case None => Nothing
    case Some(m) =>
      match m.chat
      case None => Nothing
      case Some(chat) =>
        var text := CommandText(m);
        if StartsWith(text, NewContentCommand) then
          var title := ContentTitle(text);
          InsertAndReply(chat.id, title, SavedPrefix + title)
        else if text == IdCommand then ReplyOnly(chat.id, ChatIdPrefix + IntText(chat.id))
        else ReplyOnly(chat.id, HelpReply)
  }

  /**
   * A `/newcontent` title is never empty and carries no white space at
   * either end.
   */
  lemma ContentTitleTrimmed(text: string)
    ensures ContentTitle(text) != [] && Trim(ContentTitle(text)) == ContentTitle(text)
  {
    var rest := Trim(ReplaceFirst(text, NewContentCommand, ""));
    if rest == [] {
      DefaultTitleTrimmed();
    } else {
      TrimIdempotent(ReplaceFirst(text, NewContentCommand, ""));
    }
  }

  lemma DefaultTitleTrimmed()
    ensures Trim(DefaultTitle) == DefaultTitle
  {
    assert !IsJsSpace(DefaultTitle[0]) && !IsJsSpace(DefaultTitle[|DefaultTitle| - 1]);
    TrimUnchanged(DefaultTitle);
  }

  /** The `/id` reply carries the chat id: reading the number after the prefix gives it back. */
  lemma IdReplyNamesChat(update: Option<Message>)
    requires update.Some? && update.value.chat.Some? && CommandText(update.value) == IdCommand
    ensures var a := Classify(update);
      && a.ReplyOnly?
      && StartsWith(a.text, ChatIdPrefix)
      && IntValue(a.text[|ChatIdPrefix|..]) == update.value.chat.value.id
  {
    var a := Classify(update);
    assert !StartsWith(IdCommand, NewContentCommand);
    assert a.text[|ChatIdPrefix|..] == IntText(update.value.chat.value.id);
  }

  /** The command text of `/newcontent`, typed with white space before, inside and after it. */
  function CommandWord(mid: string, word: string): string {
    if word == [] then NewContentCommand else NewContentCommand + mid + word
  }

  /** Trimming a framed `/newcontent` command leaves the command word and the title word. */
  lemma CommandWordTrimmed(pre: string, mid: string, word: string, post: string)
    requires AllSpace(pre) && AllSpace(mid) && AllSpace(post)
    requires word == [] || (!IsJsSpace(word[0]) && !IsJsSpace(word[|word| - 1]))
    ensures Trim(pre + NewContentCommand + mid + word + post) == CommandWord(mid, word)
  {
    var cmd := NewContentCommand;
    var x := CommandWord(mid, word);
    assert !IsJsSpace(cmd[0]) && !IsJsSpace(cmd[|cmd| - 1]);
    if word == [] {
      assert pre + cmd + mid + word + post == pre + x + (mid + post);
      assert AllSpace(mid + post) by {
        assert forall i :: 0 <= i < |mid + post| ==> (mid + post)[i] in mid || (mid + post)[i] in post;
      }
      TrimFramed(pre, x, mid + post);
    } else {
      assert pre + cmd + mid + word + post == pre + x + post;
      TrimFramed(pre, x, post);
    }
  }

  /** The title of a `/newcontent` command text is its title word, or the default title. */
  lemma CommandWordTitle(mid: string, word: string)
    requires AllSpace(mid)
    requires word == [] || (!IsJsSpace(word[0]) && !IsJsSpace(word[|word| - 1]))
    ensures StartsWith(CommandWord(mid, word), NewContentCommand)
    ensures ContentTitle(CommandWord(mid, word)) == if word == [] then DefaultTitle else word
  {
    var cmd := NewContentCommand;
    var x := CommandWord(mid, word);
    assert x[..|cmd|] == cmd;
    if word == [] {
      assert x[|cmd|..] == [];
      TrimFramed([], [], []);
    } else {
      assert x[|cmd|..] == mid + word + [];
      TrimFramed(mid, word, []);
    }
  }

  /**
   * Any `/newcontent` command, with white space before it, between the
   * command word and the title (possibly none: `/newcontentfoo` has title
   * `foo`) and after it, stores the title word, or the default title when
   * there is none.
   */
  lemma NewContentCommandTitle(chatId: int, pre: string, mid: string, word: string, post: string)
    requires AllSpace(pre) && AllSpace(mid) && AllSpace(post)
    requires word == [] || (!IsJsSpace(word[0]) && !IsJsSpace(word[|word| - 1]))
    ensures var title := if word == [] then DefaultTitle else word;
      Classify(Some(Message(Some(Chat(chatId)), Some(pre + NewContentCommand + mid + word + post)))) ==
        InsertAndReply(chatId, title, SavedPrefix + title)
  {
    var m := Message(Some(Chat(chatId)), Some(pre + NewContentCommand + mid + word + post));
    CommandWordTrimmed(pre, mid, word, post);
    assert CommandText(m) == CommandWord(mid, word);
    CommandWordTitle(mid, word);
  }

  /** A message without text gets the help reply and stores nothing. */
  lemma MissingTextGetsHelp(chatId: int)
    ensures Classify(Some(Message(Some(Chat(chatId)), None))) == ReplyOnly(chatId, HelpReply)
  {
    TrimUnchanged("");
  }

  /**
   * The handler: insert first (a storage failure is caught and nothing is
   * sent), then hand the reply to the transport; whatever happens the
   * response is status 200. A failed send is caught too and changes nothing
   * here, so it needs no parameter.
   */
  method HandleWebhook(db: Store.Database, update: Option<Message>, storageUp: bool)
    returns (status: int, attempted: Option<Reply>)
    requires db.Valid()
    modifies db
    ensures db.Valid()
    ensures status == 200
    ensures match Classify(update)
      case Nothing => attempted.None? && db.Snapshot() == old(db.Snapshot())
      case ReplyOnly(c, t) => attempted == Some(Reply(c, t)) && db.Snapshot() == old(db.Snapshot())
      case InsertAndReply(c, title, t) =>
        if storageUp then
          && attempted == Some(Reply(c, t))
          && db.Snapshot() == old(db.Snapshot()).(
               contentItems := old(db.contentItems)[old(db.nextContentId) := Schema.ContentItem(title)],
               nextContentId := old(db.nextContentId) + 1)
        else
          attempted.None? && db.Snapshot() == old(db.Snapshot())
  {
    status := 200;
    match Classify(update)
    case Nothing =>
      attempted := None;
    case ReplyOnly(c, t) =>
      attempted := Some(Reply(c, t));
    case InsertAndReply(c, title, t) =>
      if storageUp {
        var _ := db.InsertContentItem(title);
        attempted := Some(Reply(c, t));
      } else {
        attempted := None;
      }
  }
}
