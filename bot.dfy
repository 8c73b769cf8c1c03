/**
 * The control bot: the admin and password gate in front of every command,
 * the password exchange, the chat and keyword commands that drive the
 * parser, the status summary and the Markdown notification.
 *
 * Replies are datatypes naming which answer is sent; the storage is a log
 * of the writes the bot asks for.
 */
module Bot {
  import opened Text
  import opened Wrappers
  import opened Keywords
  import opened Links
  import opened Parser
  import Settings

  /** Chats listed by name in the status summary. */
  const StatusChatLimit: nat := 3
  /** Keywords listed by name in the status summary. */
  const StatusKeywordLimit: nat := 5
  /** Message text longer than this is cut in a bot notification. */
  const BotTextLimit: nat := 300

  // ---------------------------------------------------------------------------
  // The gate

  datatype FsmState = NoState | WaitingForPassword | Authenticated

  /** What the gate does with a message: refuse it, ask for the password, or hand it on. */
  datatype GateDecision = NoAccess | AskForPassword | Proceed

  /** `authorized_users.get(user_id, False)`. */
  predicate IsAuthorized(authorized: map<int, bool>, userId: int) {
    userId in authorized && authorized[userId]
  }

  function StateOf(fsm: map<int, FsmState>, userId: int): FsmState {
    if userId in fsm then fsm[userId] else NoState
  }

  /**
   * The gate in front of every handler. Only the admin gets past it; an
   * admin who has not given the password gets past only with `/start`,
   * `/help` or while the password is awaited.
   */
  function Gate(userId: int, adminId: int, authorized: map<int, bool>, text: string, state: FsmState): (d: GateDecision)
    ensures userId != adminId ==> d == NoAccess
    ensures userId == adminId && IsAuthorized(authorized, userId) ==> d == Proceed
    ensures userId == adminId && !IsAuthorized(authorized, userId) ==>
      d != NoAccess
      && (d == Proceed <==> StartsWith(text, "/start") || StartsWith(text, "/help") || state == WaitingForPassword)
  {
    if userId != adminId then NoAccess
    else if IsAuthorized(authorized, userId) then Proceed
    else if StartsWith(text, "/start") || StartsWith(text, "/help") then Proceed
    else if state == WaitingForPassword then Proceed
    else AskForPassword
  }

  /** Authorisation once given is kept. */
  ghost predicate NeverRevoked(before: map<int, bool>, after: map<int, bool>) {
    forall u :: IsAuthorized(before, u) ==> IsAuthorized(after, u)
  }

  // ---------------------------------------------------------------------------
  // Command arguments

  /** Length of the run of non-whitespace characters at the start of `t`. */
  function WordLength(t: string): (n: nat)
    ensures n <= |t|
    ensures forall i :: 0 <= i < n ==> !IsSpace(t[i])
    ensures n < |t| ==> IsSpace(t[n])
  {
    if t == [] || IsSpace(t[0]) then 0 else 1 + WordLength(t[1..])
  }

  /**
   * `args = text.split(maxsplit=1)` followed by `args[1]` when there are two
   * parts: leading whitespace skipped, the first word dropped, the
   * whitespace after it skipped; None when nothing is left.
   */
  function CommandArgument(text: string): (r: Option<string>)
    ensures r.Some? ==> r.value != [] && !IsSpace(r.value[0])
  {
    var t := LStrip(text);
    var rest := LStrip(t[WordLength(t)..]);
    if rest == [] then None else Some(rest)
  }

  /** A command word, a blank and an argument that starts with a non-blank give that argument. */
  lemma CommandArgumentOf(command: string, sep: char, arg: string)
    requires command != [] && !IsSpace(command[0])
    requires forall i :: 0 <= i < |command| ==> !IsSpace(command[i])
    requires IsSpace(sep) && arg != [] && !IsSpace(arg[0])
    ensures CommandArgument(command + [sep] + arg) == Some(arg)
  {
    var text := command + [sep] + arg;
    assert text[0] == command[0];
    assert LStrip(text) == text;
    WordLengthOf(command, [sep] + arg);
    assert text[|command|..] == [sep] + arg;
    assert ([sep] + arg)[1..] == arg;
    assert LStrip([sep] + arg) == LStrip(arg) == arg;
  }

  lemma {:induction false} WordLengthOf(w: string, rest: string)
    requires forall i :: 0 <= i < |w| ==> !IsSpace(w[i])
    requires rest != [] && IsSpace(rest[0])
    ensures WordLength(w + rest) == |w|
  {
    if w != [] {
      assert (w + rest)[1..] == w[1..] + rest;
      WordLengthOf(w[1..], rest);
    }
  }

  /** There is no argument exactly when nothing but blanks follows the first word. */
  lemma CommandArgumentNoneIff(text: string)
    ensures CommandArgument(text).None? <==> WordIsLast(LStrip(text))
  {
    var t := LStrip(text);
    assert CommandArgument(text).None? <==> LStrip(t[WordLength(t)..]) == [];
    BlankSuffix(t, WordLength(t));
  }

  /** Only blanks follow the first word of `t`. */
  predicate WordIsLast(t: string) {
    forall i :: WordLength(t) <= i < |t| ==> IsSpace(t[i])
  }

  /** A suffix strips to nothing exactly when every character from its start on is blank. */
  lemma BlankSuffix(t: string, n: nat)
    requires n <= |t|
    ensures LStrip(t[n..]) == [] <==> forall i :: n <= i < |t| ==> IsSpace(t[i])
  {
    var tail := t[n..];
    LStripEmptyIff(tail);
    if forall i :: n <= i < |t| ==> IsSpace(t[i]) {
      forall k | 0 <= k < |tail|
        ensures IsSpace(tail[k])
      {
        assert tail[k] == t[n + k];
      }
    }
    if forall k :: 0 <= k < |tail| ==> IsSpace(tail[k]) {
      forall i | n <= i < |t|
        ensures IsSpace(t[i])
      {
        assert t[i] == tail[i - n];
      }
    }
  }

  /** The keywords of `/setkeywords`: the argument stripped, split at commas, each piece stripped, lower-cased, blanks dropped. */
  function KeywordArgument(arg: string): (r: seq<string>)
    ensures forall i :: 0 <= i < |r| ==> IsNormalKeyword(r[i])
  {
    NormalizeKeywordsNormal(Split(Strip(arg), ','));
    NormalizeKeywords(Split(Strip(arg), ','))
  }

  /** The command's keyword parsing is the keyword setting's parsing of the stripped argument. */
  lemma KeywordArgumentIsSettingParse(arg: string)
    ensures KeywordArgument(arg) == Settings.ParseKeywords(Strip(arg))
  {
    Settings.ParseKeywordsIsNormalizedSplit(Strip(arg));
  }

  // ---------------------------------------------------------------------------
  // Replies and storage

  datatype StartReply = AlreadyAuthorized | Welcome
  datatype AddChatReply = MissingLink | LimitReached(limit: int) | ChatAddedReply(link: string, total: nat) | AddFailed
  /** `Crashed`: the removal raised, no answer is sent. */
  datatype RemoveChatReply = MissingRemoveLink | ChatRemovedReply(link: string, remaining: nat) | ChatNotFound | Crashed
  datatype SetKeywordsReply = MissingKeywords | NoKeywordsExtracted | KeywordsUpdated(keywords: seq<string>)

  /** A write the bot asks the storage to make. */
  datatype StorageWrite = SaveChats(chats: seq<(string, ChatInfo)>) | SaveKeywords(keywords: seq<string>)

  /** The facts `/status` shows, in the order it shows them. */
  datatype StatusSummary = StatusSummary(
    chatCount: nat, maxChats: int, keywordCount: nat, checkInterval: int,
    shownChats: seq<(string, string)>, moreChats: Option<nat>,
    shownKeywords: string, moreKeywords: Option<nat>)

  // ---------------------------------------------------------------------------
  // Notification text

  /** `s.replace(c, "\\" + c)`: a backslash before every `c`. */
  function EscapeChar(s: string, c: char): (r: string)
    ensures |r| == |s| + CountChar(s, c)
    ensures c !in s ==> r == s
  {
    if s == [] then [] else (if s[0] == c then ['\\', c] else [s[0]]) + EscapeChar(s[1..], c)
  }

  /** The three replacements in their order: backquote, star, underscore. */
  function EscapeMarkdown(s: string): (r: string)
    ensures |r| >= |s|
    ensures (forall i :: 0 <= i < |s| ==> !IsMarkdownSpecial(s[i])) ==> r == s
  {
    EscapeChar(EscapeChar(EscapeChar(s, '`'), '*'), '_')
  }

  predicate IsMarkdownSpecial(c: char) {
    c == '`' || c == '*' || c == '_'
  }

  /** Escaping one character of the text. */
  function EscapeOne(c: char): string {
    if IsMarkdownSpecial(c) then ['\\', c] else [c]
  }

  lemma {:induction false} EscapeCharAppend(a: string, b: string, c: char)
    ensures EscapeChar(a + b, c) == EscapeChar(a, c) + EscapeChar(b, c)
  {
    if a == [] {
      assert a + b == b;
    } else {
      assert (a + b)[1..] == a[1..] + b;
      EscapeCharAppend(a[1..], b, c);
    }
  }

  lemma EscapeCharSingle(x: char, c: char)
    ensures EscapeChar([x], c) == if x == c then ['\\', c] else [x]
  {
    assert [x][1..] == [];
  }

  /** The three passes escape each character on its own: no pass touches what an earlier one inserted. */
  lemma {:induction false} EscapeMarkdownPerChar(s: string)
    ensures s != [] ==> EscapeMarkdown(s) == EscapeOne(s[0]) + EscapeMarkdown(s[1..])
  {
    if s != [] {
      assert s == [s[0]] + s[1..];
      EscapeCharAppend([s[0]], s[1..], '`');
      var a := EscapeChar([s[0]], '`');
      var b := EscapeChar(s[1..], '`');
      EscapeCharAppend(a, b, '*');
      var a2 := EscapeChar(a, '*');
      var b2 := EscapeChar(b, '*');
      EscapeCharAppend(a2, b2, '_');
      EscapeCharSingle(s[0], '`');
      if s[0] == '`' {
        assert a == ['\\'] + ['`'];
        EscapeCharAppend(['\\'], ['`'], '*');
        EscapeCharSingle('\\', '*');
        EscapeCharSingle('`', '*');
        assert a2 == a;
        EscapeCharAppend(['\\'], ['`'], '_');
        EscapeCharSingle('\\', '_');
        EscapeCharSingle('`', '_');
      } else {
        EscapeCharSingle(s[0], '*');
        if s[0] == '*' {
          assert a2 == ['\\'] + ['*'];
          EscapeCharAppend(['\\'], ['*'], '_');
          EscapeCharSingle('\\', '_');
          EscapeCharSingle('*', '_');
        } else {
          EscapeCharSingle(s[0], '_');
        }
      }
    }
  }

  /** The escaped text is as long as the text plus one backslash per special character. */
  lemma {:induction false} EscapeMarkdownLength(s: string)
    ensures |EscapeMarkdown(s)| == |s| + CountChar(s, '`') + CountChar(s, '*') + CountChar(s, '_')
  {
    if s != [] {
      EscapeMarkdownPerChar(s);
      EscapeMarkdownLength(s[1..]);
    }
  }

  /** Reading escaped text back: a backslash before a special character is dropped. */
  function Unescape(s: string): string {
    if s == [] then []
    else if |s| >= 2 && s[0] == '\\' && IsMarkdownSpecial(s[1]) then [s[1]] + Unescape(s[2..])
    else [s[0]] + Unescape(s[1..])
  }

  /** Escaped text never starts with a special character. */
  lemma EscapeMarkdownHead(s: string)
    requires s != []
    ensures EscapeMarkdown(s) != [] && !IsMarkdownSpecial(EscapeMarkdown(s)[0])
  {
    EscapeMarkdownPerChar(s);
  }

  /** Escaping loses nothing: the original text can be read back from the escaped one. */
  lemma {:induction false} EscapeMarkdownRoundTrip(s: string)
    ensures Unescape(EscapeMarkdown(s)) == s
  {
    if s != [] {
      EscapeMarkdownPerChar(s);
      EscapeMarkdownRoundTrip(s[1..]);
      var rest := EscapeMarkdown(s[1..]);
      var e := EscapeOne(s[0]) + rest;
      if IsMarkdownSpecial(s[0]) {
        assert e[2..] == rest;
      } else {
        assert e[1..] == rest;
        if s[0] == '\\' && |e| >= 2 {
          EscapeMarkdownHead(s[1..]);
          assert e[1] == rest[0];
        }
      }
      assert [s[0]] + s[1..] == s;
    }
  }

  /** The message part of a bot notification: cut at 300 characters, then escaped for Markdown. */
  function NotificationBody(text: string): (r: string)
    ensures var t := Truncate(text, BotTextLimit);
      |r| == |t| + CountChar(t, '`') + CountChar(t, '*') + CountChar(t, '_')
    ensures Unescape(r) == Truncate(text, BotTextLimit)
  {
    var t := Truncate(text, BotTextLimit);
    EscapeMarkdownLength(t);
    EscapeMarkdownRoundTrip(t);
    EscapeMarkdown(t)
  }

  const BotKeywordsLabel: string := "🔍 **Найденные ключевые слова:** "

  /** The Markdown notification sent for a matched message; `dateStr` is the message date already rendered. */
  function FormatBotNotification(data: MessageData, dateStr: string): (r: string)
    ensures Contains(r, "```\n" + NotificationBody(data.messageText) + "\n```\n")
    ensures Contains(r, BotKeywordsLabel + Join(data.foundKeywords, ", ") + "\n")
  {
    var head := "🔔 **Найдено сообщение по ключевому слову!**\n\n"
      + "📢 **Чат:** " + data.chatTitle + "\n"
      + "🆔 **Ссылка:** https://t.me/" + data.chatUsername + "\n"
      + "✉️ **Сообщение:** \n";
    var block := "```\n" + NotificationBody(data.messageText) + "\n```\n";
    var keywordLine := BotKeywordsLabel + Join(data.foundKeywords, ", ") + "\n";
    var tail := "⏰ **Время:** " + dateStr;
    ThreeParts(head, block, keywordLine + tail);
    ThreeParts(head + block, keywordLine, tail);
    assert head + block + (keywordLine + tail) == head + block + keywordLine + tail;
    head + block + keywordLine + tail
  }

  // ---------------------------------------------------------------------------
  // The bot object

  class TelegramBot {
    const parser: TelegramParser
    const adminId: int
    const password: string
    const maxChats: int
    const checkInterval: int
    var authorizedUsers: map<int, bool>
    /** The conversation state per user. */
    var fsm: map<int, FsmState>
    /** The storage writes asked for so far. */
    var storageLog: seq<StorageWrite>

    ghost predicate Valid()
      reads this, parser
    {
      parser.Valid()
    }

    constructor (p: TelegramParser, admin: int, pass: string, limit: int, interval: int)
      requires p.Valid()
      ensures Valid()
      ensures parser == p && adminId == admin && password == pass && maxChats == limit && checkInterval == interval
      ensures authorizedUsers == map[] && fsm == map[] && storageLog == []
    {
      parser := p;
      adminId := admin;
      password := pass;
      maxChats := limit;
      checkInterval := interval;
      authorizedUsers := map[];
      fsm := map[];
      storageLog := [];
    }

    /**
     * The gate's decision for a message from `userId`: anyone but the admin
     * is turned away; the authorised admin always gets through; the admin
     * without a session gets through only with `/start`, `/help` or while
     * this bot is waiting for the password, and is asked for it otherwise.
     */
    function Admit(userId: int, text: string): (d: GateDecision)
      reads this
      ensures userId != adminId ==> d == NoAccess
      ensures userId == adminId && IsAuthorized(authorizedUsers, userId) ==> d == Proceed
      ensures userId == adminId && !IsAuthorized(authorizedUsers, userId) ==>
        && (d == Proceed <==> StartsWith(text, "/start") || StartsWith(text, "/help") || StateOf(fsm, userId) == WaitingForPassword)
        && (d != Proceed ==> d == AskForPassword)
    {
      Gate(userId, adminId, authorizedUsers, text, StateOf(fsm, userId))
    }

    /**
     * Start-up: saved keywords, when there are any, go through the keyword
     * setter; saved chats, when there are any, replace the registry. The
     * watermarks are left alone, so restored chats start without one.
     */
    method LoadSavedData(savedKeywords: seq<string>, savedChats: seq<(string, ChatInfo)>)
      requires Valid()
      requires Distinct(EntryKeys(savedChats))
      modifies parser
      ensures Valid()
      ensures parser.keywords == if savedKeywords == [] then old(parser.keywords) else NormalizeKeywords(savedKeywords)
      ensures savedChats == [] ==>
        parser.chatOrder == old(parser.chatOrder) && parser.monitoredChats == old(parser.monitoredChats)
      ensures savedChats != [] ==>
        parser.chatOrder == EntryKeys(savedChats) && parser.monitoredChats == EntryMap(savedChats)
        && parser.GetMonitoredChats() == savedChats
      ensures parser.lastCheckTime == old(parser.lastCheckTime) && parser.handlers == old(parser.handlers)
    {
      if savedKeywords != [] {
        parser.SetKeywords(savedKeywords);
      }
      if savedChats != [] {
        parser.monitoredChats := EntryMap(savedChats);
        parser.chatOrder := EntryKeys(savedChats);
        LoadThenSave(savedChats);
      }
    }

    /** `/start`: an authorised user is told so; anyone else is asked for the password. */
    method CmdStart(userId: int) returns (reply: StartReply)
      modifies this
      ensures reply == AlreadyAuthorized <==> IsAuthorized(old(authorizedUsers), userId)
      ensures fsm == if reply == AlreadyAuthorized then old(fsm) else old(fsm)[userId := WaitingForPassword]
      ensures authorizedUsers == old(authorizedUsers) && storageLog == old(storageLog)
    {
      if IsAuthorized(authorizedUsers, userId) {
        return AlreadyAuthorized;
      }
      fsm := fsm[userId := WaitingForPassword];
      reply := Welcome;
    }

    /** The awaited password: the stripped text equal to the configured password authorises the user for good. */
    method HandlePassword(userId: int, text: string) returns (accepted: bool)
      modifies this
      ensures accepted <==> Strip(text) == password
      ensures accepted ==>
        authorizedUsers == old(authorizedUsers)[userId := true] && fsm == old(fsm)[userId := Authenticated]
      ensures !accepted ==> authorizedUsers == old(authorizedUsers) && fsm == old(fsm)
      ensures NeverRevoked(old(authorizedUsers), authorizedUsers)
      ensures storageLog == old(storageLog)
    {
      accepted := Strip(text) == password;
      if accepted {
        authorizedUsers := authorizedUsers[userId := true];
        fsm := fsm[userId := Authenticated];
      }
    }

    /**
     * `/addchat <link>`: without a link, or with the registry at its limit,
     * the parser is not called; otherwise the stripped link is added and the
     * registry is saved only when the add succeeded.
     */
    method CmdAddChat(text: string, resolve: string -> Option<Entity>, now: int) returns (reply: AddChatReply)
      requires Valid()
      modifies this, parser
      ensures Valid()
      ensures authorizedUsers == old(authorizedUsers) && fsm == old(fsm)
      ensures parser.keywords == old(parser.keywords) && parser.handlers == old(parser.handlers)
      ensures reply == MissingLink <==> CommandArgument(text).None?
      ensures reply.LimitReached? <==> CommandArgument(text).Some? && old(|parser.monitoredChats|) >= maxChats
      ensures reply.LimitReached? ==> reply.limit == maxChats
      ensures (reply.MissingLink? || reply.LimitReached? || reply.AddFailed?) ==>
        && parser.chatOrder == old(parser.chatOrder) && parser.monitoredChats == old(parser.monitoredChats)
        && parser.lastCheckTime == old(parser.lastCheckTime) && storageLog == old(storageLog)
      ensures reply.ChatAddedReply? ==> AddTarget(Strip(CommandArgument(text).value), resolve).Some?
      ensures reply.ChatAddedReply? ==>
        var link := Strip(CommandArgument(text).value);
        var (u, e) := AddTarget(link, resolve).value;
        && ChatAdded(u, NewChatInfo(e, u, link, now), now,
                     old(parser.chatOrder), old(parser.monitoredChats), old(parser.lastCheckTime),
                     parser.chatOrder, parser.monitoredChats, parser.lastCheckTime)
        && storageLog == old(storageLog) + [SaveChats(parser.GetMonitoredChats())]
        && reply == ChatAddedReply(link, |parser.monitoredChats|)
      ensures reply.AddFailed? <==>
        && CommandArgument(text).Some? && old(|parser.monitoredChats|) < maxChats
        && AddTarget(Strip(CommandArgument(text).value), resolve).None?
    {
      var arg := CommandArgument(text);
      if arg.None? {
        return MissingLink;
      }
      var link := Strip(arg.value);
      if parser.ChatCount() >= maxChats {
        return LimitReached(maxChats);
      }
      reply := AddLink(link, resolve, now);
    }

    /** The part of `/addchat` after a link was given and the registry found below its limit. */
    method AddLink(link: string, resolve: string -> Option<Entity>, now: int) returns (reply: AddChatReply)
      requires Valid()
      modifies this, parser
      ensures Valid()
      ensures authorizedUsers == old(authorizedUsers) && fsm == old(fsm)
      ensures parser.keywords == old(parser.keywords) && parser.handlers == old(parser.handlers)
      ensures reply.ChatAddedReply? || reply.AddFailed?
      ensures reply.AddFailed? <==> AddTarget(link, resolve).None?
      ensures reply.AddFailed? ==>
        && parser.chatOrder == old(parser.chatOrder) && parser.monitoredChats == old(parser.monitoredChats)
        && parser.lastCheckTime == old(parser.lastCheckTime) && storageLog == old(storageLog)
      ensures reply.ChatAddedReply? ==>
        var (u, e) := AddTarget(link, resolve).value;
        && ChatAdded(u, NewChatInfo(e, u, link, now), now,
                     old(parser.chatOrder), old(parser.monitoredChats), old(parser.lastCheckTime),
                     parser.chatOrder, parser.monitoredChats, parser.lastCheckTime)
        && storageLog == old(storageLog) + [SaveChats(parser.GetMonitoredChats())]
        && reply == ChatAddedReply(link, |parser.monitoredChats|)
    {
      var ok := parser.AddChat(link, resolve, now);
      if ok {
        storageLog := storageLog + [SaveChats(parser.GetMonitoredChats())];
        reply := ChatAddedReply(link, parser.ChatCount());
      } else {
        reply := AddFailed;
      }
    }

    /**
     * `/removechat <link>`: without a link the parser is not called;
     * otherwise the stripped link is removed and the registry saved only when
     * the removal succeeded.
     */
    method CmdRemoveChat(text: string) returns (reply: RemoveChatReply)
      requires Valid()
      modifies this, parser
      ensures Valid()
      ensures authorizedUsers == old(authorizedUsers) && fsm == old(fsm)
      ensures parser.keywords == old(parser.keywords) && parser.handlers == old(parser.handlers)
      ensures reply == MissingRemoveLink <==> CommandArgument(text).None?
      ensures (reply.MissingRemoveLink? || reply.ChatNotFound?) ==>
        && parser.chatOrder == old(parser.chatOrder) && parser.monitoredChats == old(parser.monitoredChats)
        && parser.lastCheckTime == old(parser.lastCheckTime)
      ensures !reply.ChatRemovedReply? ==> storageLog == old(storageLog)
      ensures reply.ChatNotFound? ==>
        var u := ExtractUsername(Strip(CommandArgument(text).value));
        !(u.Some? && u.value in old(parser.monitoredChats))
      ensures (reply.ChatRemovedReply? || reply.Crashed?) ==>
        var link := Strip(CommandArgument(text).value);
        var u := ExtractUsername(link);
        && u.Some? && u.value in old(parser.monitoredChats)
        && ChatRemoved(u.value, reply.Crashed?,
                       old(parser.chatOrder), old(parser.monitoredChats), old(parser.lastCheckTime),
                       parser.chatOrder, parser.monitoredChats, parser.lastCheckTime)
      ensures reply.ChatRemovedReply? ==>
        && storageLog == old(storageLog) + [SaveChats(parser.GetMonitoredChats())]
        && reply == ChatRemovedReply(Strip(CommandArgument(text).value), |parser.monitoredChats|)
    {
      var arg := CommandArgument(text);
      if arg.None? {
        return MissingRemoveLink;
      }
      reply := RemoveLink(Strip(arg.value));
    }

    /** The part of `/removechat` after a link was given. */
    method RemoveLink(link: string) returns (reply: RemoveChatReply)
      requires Valid()
      modifies this, parser
      ensures Valid()
      ensures authorizedUsers == old(authorizedUsers) && fsm == old(fsm)
      ensures parser.keywords == old(parser.keywords) && parser.handlers == old(parser.handlers)
      ensures !reply.MissingRemoveLink?
      ensures reply.ChatNotFound? ==>
        && parser.chatOrder == old(parser.chatOrder) && parser.monitoredChats == old(parser.monitoredChats)
        && parser.lastCheckTime == old(parser.lastCheckTime)
      ensures !reply.ChatRemovedReply? ==> storageLog == old(storageLog)
      ensures reply.ChatNotFound? ==>
        var u := ExtractUsername(link);
        !(u.Some? && u.value in old(parser.monitoredChats))
      ensures (reply.ChatRemovedReply? || reply.Crashed?) ==>
        var u := ExtractUsername(link);
        && u.Some? && u.value in old(parser.monitoredChats)
        && ChatRemoved(u.value, reply.Crashed?,
                       old(parser.chatOrder), old(parser.monitoredChats), old(parser.lastCheckTime),
                       parser.chatOrder, parser.monitoredChats, parser.lastCheckTime)
      ensures reply.ChatRemovedReply? ==>
        && storageLog == old(storageLog) + [SaveChats(parser.GetMonitoredChats())]
        && reply == ChatRemovedReply(link, |parser.monitoredChats|)
    {
      var outcome := parser.RemoveChat(link);
      match outcome {
        case Removed =>
          storageLog := storageLog + [SaveChats(parser.GetMonitoredChats())];
          reply := ChatRemovedReply(link, parser.ChatCount());
        case NotMonitored =>
          reply := ChatNotFound;
        case MissingWatermark =>
          reply := Crashed;
      }
    }

    /**
     * `/setkeywords a, b, c`: without an argument, or when no keyword
     * survives parsing, nothing changes; otherwise the parser and the
     * storage receive the same list, which is also what the parser then holds.
     */
    method CmdSetKeywords(text: string) returns (reply: SetKeywordsReply)
      requires Valid()
      modifies this, parser
      ensures Valid()
      ensures authorizedUsers == old(authorizedUsers) && fsm == old(fsm)
      ensures parser.chatOrder == old(parser.chatOrder) && parser.monitoredChats == old(parser.monitoredChats)
      ensures parser.lastCheckTime == old(parser.lastCheckTime) && parser.handlers == old(parser.handlers)
      ensures reply == MissingKeywords <==> CommandArgument(text).None?
      ensures reply == NoKeywordsExtracted <==>
        CommandArgument(text).Some? && KeywordArgument(CommandArgument(text).value) == []
      ensures !reply.KeywordsUpdated? ==> parser.keywords == old(parser.keywords) && storageLog == old(storageLog)
      ensures reply.KeywordsUpdated? ==>
        && reply.keywords == KeywordArgument(CommandArgument(text).value) != []
        && parser.keywords == reply.keywords
        && storageLog == old(storageLog) + [SaveKeywords(reply.keywords)]
    {
      var arg := CommandArgument(text);
      if arg.None? {
        return MissingKeywords;
      }
      var keywords := KeywordArgument(arg.value);
      if keywords == [] {
        return NoKeywordsExtracted;
      }
      parser.SetKeywords(keywords);
      NormalizeKeywordsFixed(keywords);
      storageLog := storageLog + [SaveKeywords(keywords)];
      reply := KeywordsUpdated(keywords);
    }

    /**
     * `/status`: the counts, the first three chats in registry order and how
     * many more there are, the first five keywords joined with ", " and how
     * many more there are.
     */
    method Status() returns (r: StatusSummary)
      requires Valid()
      ensures r.chatCount == parser.ChatCount() && r.maxChats == maxChats
      ensures r.keywordCount == |parser.keywords| && r.checkInterval == checkInterval
      ensures |r.shownChats| == if r.chatCount < StatusChatLimit then r.chatCount else StatusChatLimit
      ensures forall i :: 0 <= i < |r.shownChats| ==>
        var u := parser.chatOrder[i];
        r.shownChats[i] == (parser.monitoredChats[u].title, u)
      ensures r.moreChats == if r.chatCount > StatusChatLimit then Some(r.chatCount - StatusChatLimit) else None
      ensures |r.shownChats| + (if r.moreChats.Some? then r.moreChats.value else 0) == r.chatCount
      ensures r.shownKeywords == Join(parser.keywords[..|parser.keywords| - KeywordsHidden(|parser.keywords|)], ", ")
      ensures r.moreKeywords == if KeywordsHidden(|parser.keywords|) > 0 then Some(KeywordsHidden(|parser.keywords|)) else None
    {
      var chats := parser.GetMonitoredChats();
      assert chats == Snapshot(parser.chatOrder, parser.monitoredChats);
      var shown := FirstChats(chats);
      var more := if |chats| > StatusChatLimit then Some(|chats| - StatusChatLimit) else None;
      var ks := parser.keywords;
      var hidden := KeywordsHidden(|ks|);
      r := StatusSummary(
        |chats|, maxChats, |ks|, checkInterval,
        shown, more,
        Join(ks[..|ks| - hidden], ", "),
        if hidden > 0 then Some(hidden) else None);
    }
  }

  /** The (title, username) lines `/status` shows: those of the first three chats, in order. */
  method FirstChats(chats: seq<(string, ChatInfo)>) returns (shown: seq<(string, string)>)
    ensures |shown| == if |chats| < StatusChatLimit then |chats| else StatusChatLimit
    ensures forall j :: 0 <= j < |shown| ==> shown[j] == (chats[j].1.title, chats[j].0)
  {
    shown := [];
    var i := 0;
    while i < |chats| && i < StatusChatLimit
      invariant 0 <= i <= |chats| && i <= StatusChatLimit
      invariant |shown| == i
      invariant forall j :: 0 <= j < i ==> shown[j] == (chats[j].1.title, chats[j].0)
    {
      shown := shown + [(chats[i].1.title, chats[i].0)];
      i := i + 1;
    }
  }

  /** How many keywords `/status` leaves out of a list of `n`: those past the fifth. */
  function KeywordsHidden(n: nat): (h: nat)
    ensures h <= n
    ensures n - h == if n < StatusKeywordLimit then n else StatusKeywordLimit
  {
    if n > StatusKeywordLimit then n - StatusKeywordLimit else 0
  }
}
