/**
 * The chat-monitoring engine: the registry of monitored chats with their
 * watermarks, the keyword set, the registered message handlers, and the
 * per-chat poll step that filters a fetched batch and dispatches matches.
 *
 * Platform calls are parameters: resolving a username is a function from
 * usernames to entities (or None when the lookup raises), a fetch is a
 * `FetchOutcome`, the clock is an integer number of seconds, and whether a
 * handler raises on a message is a function of the handler and the message.
 */
module Parser {
  import opened Text
  import opened Wrappers
  import opened Keywords
  import opened Links
  import Settings

  /** A new chat's first watermark lies this many seconds before the clock reading. */
  const GraceSeconds: int := 300

  datatype ChatKind = User | Group | Channel | Unknown

  /** What the platform returns for a username: `title` and `first_name` are absent on some entity kinds. */
  datatype Entity = Entity(id: int, title: Option<string>, firstName: Option<string>, kind: ChatKind)

  /** One entry of the registry. */
  datatype ChatInfo = ChatInfo(
    id: int, title: string, username: string, link: string,
    kind: ChatKind, addedAt: int, lastMessageId: int)

  /** A fetched message; an empty text stands for a message without text. */
  datatype Message = Message(id: int, text: string, date: int, senderId: Option<int>)

  /** The record every handler receives for a matched message. */
  datatype MessageData = MessageData(
    chatTitle: string, chatUsername: string, chatLink: string,
    messageText: string, messageId: int, date: int,
    senderId: Option<int>, foundKeywords: seq<string>)

  /** Why a poll step did not complete: the lookup, a flood wait or any other error of the fetch. */
  datatype FetchError = EntityNotFound | FloodWait(seconds: nat) | OtherError
  datatype FetchOutcome = Fetched(batch: seq<Message>) | FetchFailed(error: FetchError)

  /** A registered message handler; the engine knows nothing else about it. */
  datatype Sink = Sink(name: string)

  /** One handler call: which handler, with what, and whether it raised (the error is logged and dropped). */
  datatype Delivery = Delivery(sink: Sink, data: MessageData, raised: bool)

  /**
   * How a removal ends: the chat was removed; it was not monitored; or it had
   * no watermark, so the second deletion raised after the registry entry was gone.
   */
  datatype RemoveOutcome = Removed | NotMonitored | MissingWatermark

  // ---------------------------------------------------------------------------
  // Sequences used as ordered dictionaries

  predicate Distinct<T(==)>(s: seq<T>) {
    forall i, j :: 0 <= i < j < |s| ==> s[i] != s[j]
  }

  /** `s` with every occurrence of `x` removed. */
  function Without(s: seq<string>, x: string): (r: seq<string>)
    ensures forall y :: y in r <==> y in s && y != x
    ensures Distinct(s) ==> Distinct(r)
    ensures x in s && Distinct(s) ==> |r| == |s| - 1
    ensures x !in s ==> r == s
  {
    if s == [] then []
    else if s[0] == x then Without(s[1..], x)
    else
      var w := Without(s[1..], x);
      assert Distinct(s) ==> s[0] !in w;
      [s[0]] + w
  }

  lemma {:induction false} DistinctCardinality<T>(s: seq<T>)
    requires Distinct(s)
    ensures |set x | x in s| == |s|
  {
    if s != [] {
      DistinctCardinality(s[1..]);
      assert (set x | x in s) == (set x | x in s[1..]) + {s[0]};
      assert s[0] !in s[1..];
    }
  }

  // ---------------------------------------------------------------------------
  // Specification of the poll step

  /** The title recorded for a chat: the entity's title, else its first name, else the username. */
  function ChatTitle(e: Entity, username: string): string {
    if e.title.Some? then e.title.value
    else if e.firstName.Some? then e.firstName.value
    else username
  }

  function NewChatInfo(e: Entity, username: string, link: string, now: int): ChatInfo {
    ChatInfo(e.id, ChatTitle(e, username), username, link, e.kind, now, 0)
  }

  /** The watermark a poll step reads: the stored one, or five minutes before the clock. */
  function Watermark(lastCheckTime: map<string, int>, username: string, now: int): (r: int)
    ensures username in lastCheckTime ==> r == lastCheckTime[username]
    ensures username !in lastCheckTime ==> r < now && now - r == GraceSeconds
  {
    if username in lastCheckTime then lastCheckTime[username] else now - GraceSeconds
  }

  /** The batch in the order it is walked: oldest first. */
  function Chronological<T>(batch: seq<T>): (r: seq<T>)
    ensures |r| == |batch|
    ensures forall i :: 0 <= i < |batch| ==> r[i] == batch[|batch| - 1 - i]
  {
    if batch == [] then [] else Chronological(batch[1..]) + [batch[0]]
  }

  /** A message is dispatched when strictly newer than the watermark, with text, and matching a keyword. */
  predicate Qualifies(m: Message, watermark: int, ks: seq<string>) {
    m.date > watermark && m.text != [] && MessageMatches(ks, m.text)
  }

  /** The messages of `msgs` that qualify, in their order. */
  function Selected(msgs: seq<Message>, watermark: int, ks: seq<string>): (r: seq<Message>)
    ensures |r| <= |msgs|
  {
    if msgs == [] then []
    else
      var m := msgs[|msgs| - 1];
      Selected(msgs[..|msgs| - 1], watermark, ks) + (if Qualifies(m, watermark, ks) then [m] else [])
  }

  /** The record built for a matched message; a sender id of 0 counts as none. */
  function BuildMessageData(m: Message, info: ChatInfo, ks: seq<string>): (r: MessageData)
    ensures forall k :: k in r.foundKeywords <==> k in ks && KeywordIn(k, m.text)
    ensures m.text != [] ==> (r.foundKeywords != [] <==> MessageMatches(ks, m.text))
    ensures r.foundKeywords == MatchingKeywords(ks, m.text)
    ensures r.senderId == if m.senderId == Some(0) then None else m.senderId
    ensures r.chatTitle == info.title && r.chatUsername == info.username && r.chatLink == info.link
    ensures r.messageText == m.text && r.messageId == m.id && r.date == m.date
  {
    MatchingKeywordsMembers(ks, m.text);
    MessageData(
      info.title, info.username, info.link, m.text, m.id, m.date,
      if m.senderId.Some? && m.senderId.value != 0 then m.senderId else None,
      MatchingKeywords(ks, m.text))
  }

  /** One message handed to every handler in registration order, whatever the earlier ones did. */
  function Dispatch(data: MessageData, sinks: seq<Sink>, raises: (Sink, MessageData) -> bool): (r: seq<Delivery>)
    ensures |r| == |sinks|
    ensures forall i :: 0 <= i < |sinks| ==> r[i] == Delivery(sinks[i], data, raises(sinks[i], data))
  {
    if sinks == [] then []
    else
      var s := sinks[|sinks| - 1];
      Dispatch(data, sinks[..|sinks| - 1], raises) + [Delivery(s, data, raises(s, data))]
  }

  /** Every message of `msgs`, in order, handed to every handler. */
  function DispatchAll(msgs: seq<Message>, info: ChatInfo, ks: seq<string>, sinks: seq<Sink>,
                       raises: (Sink, MessageData) -> bool): (r: seq<Delivery>)
    ensures |r| == |msgs| * |sinks|
  {
    if msgs == [] then []
    else
      var m := msgs[|msgs| - 1];
      DispatchAll(msgs[..|msgs| - 1], info, ks, sinks, raises) + Dispatch(BuildMessageData(m, info, ks), sinks, raises)
  }

  /** The handler calls one completed poll step of a chat makes for a fetched (newest-first) batch. */
  function PollDeliveries(batch: seq<Message>, watermark: int, info: ChatInfo, ks: seq<string>,
                          sinks: seq<Sink>, raises: (Sink, MessageData) -> bool): (r: seq<Delivery>)
    ensures |r| == |Selected(Chronological(batch), watermark, ks)| * |sinks|
    ensures sinks == [] ==> r == []
  {
    DispatchAll(Selected(Chronological(batch), watermark, ks), info, ks, sinks, raises)
  }

  // ---------------------------------------------------------------------------
  // Specification of a polling pass over all chats

  /** The watermarks after a pass: every chat whose fetch completed is moved to its clock reading. */
  function Advance(lastCheckTime: map<string, int>, order: seq<string>,
                   fetches: string -> FetchOutcome, clock: string -> int): (r: map<string, int>)
    ensures lastCheckTime.Keys <= r.Keys <= lastCheckTime.Keys + set v | v in order
  {
    if order == [] then lastCheckTime
    else
      var u := order[|order| - 1];
      assert order == order[..|order| - 1] + [u];
      var m := Advance(lastCheckTime, order[..|order| - 1], fetches, clock);
      if fetches(u).Fetched? then m[u := clock(u)] else m
  }

  /**
   * The handler calls of a pass over the registry's (username, entry) pairs:
   * each chat in turn, a chat whose fetch failed contributing nothing.
   */
  function PassDeliveries(items: seq<(string, ChatInfo)>, lastCheckTime: map<string, int>,
                          ks: seq<string>, sinks: seq<Sink>, fetches: string -> FetchOutcome,
                          clock: string -> int, raises: (Sink, MessageData) -> bool): (r: seq<Delivery>)
  {
    Concat(items, ChatStep(lastCheckTime, ks, sinks, fetches, clock, raises))
  }

  /** The calls of each item's step, one item after the other; nothing when every step contributes nothing. */
  function Concat<T>(items: seq<T>, step: T -> seq<Delivery>): (r: seq<Delivery>)
  {
    if items == [] then [] else Concat(items[..|items| - 1], step) + step(items[|items| - 1])
  }

  /** A chat's step within a pass, as a function of its (username, entry) pair. */
  function ChatStep(lastCheckTime: map<string, int>, ks: seq<string>, sinks: seq<Sink>,
                    fetches: string -> FetchOutcome, clock: string -> int,
                    raises: (Sink, MessageData) -> bool): ((string, ChatInfo)) -> seq<Delivery>
  {
    (item: (string, ChatInfo)) => ChatDeliveries(item.0, item.1, lastCheckTime, ks, sinks, fetches, clock, raises)
  }

  /** The handler calls of one chat's step within a pass: none when its fetch failed. */
  function ChatDeliveries(u: string, info: ChatInfo, lastCheckTime: map<string, int>,
                          ks: seq<string>, sinks: seq<Sink>, fetches: string -> FetchOutcome,
                          clock: string -> int, raises: (Sink, MessageData) -> bool): (r: seq<Delivery>)
    ensures fetches(u).FetchFailed? ==> r == []
  {
    match fetches(u)
    case Fetched(batch) => PollDeliveries(batch, Watermark(lastCheckTime, u, clock(u)), info, ks, sinks, raises)
    case FetchFailed(_) => []
  }

  /** The registry as (username, entry) pairs in the order of `order`. */
  function Snapshot(order: seq<string>, chats: map<string, ChatInfo>): (r: seq<(string, ChatInfo)>)
    requires forall u :: u in order ==> u in chats
    ensures |r| == |order|
    ensures forall i :: 0 <= i < |order| ==> r[i] == (order[i], chats[order[i]])
  {
    seq(|order|, i requires 0 <= i < |order| => (order[i], chats[order[i]]))
  }

  /** The usernames of a list of saved entries, in order. */
  function EntryKeys(entries: seq<(string, ChatInfo)>): (r: seq<string>)
    ensures |r| == |entries|
    ensures forall i :: 0 <= i < |entries| ==> r[i] == entries[i].0
  {
    seq(|entries|, i requires 0 <= i < |entries| => entries[i].0)
  }

  /** The dictionary built from saved entries; a later entry for a username replaces an earlier one. */
  function EntryMap(entries: seq<(string, ChatInfo)>): (m: map<string, ChatInfo>)
    ensures forall u :: u in m <==> u in EntryKeys(entries)
  {
    if entries == [] then map[]
    else
      var init := entries[..|entries| - 1];
      var last := entries[|entries| - 1];
      assert EntryKeys(entries) == EntryKeys(init) + [last.0];
      EntryMap(init)[last.0 := last.1]
  }

  /** With distinct usernames, every saved entry is found under its username. */
  lemma {:induction false} EntryMapAt(entries: seq<(string, ChatInfo)>, i: nat)
    requires Distinct(EntryKeys(entries)) && i < |entries|
    ensures entries[i].0 in EntryMap(entries) && EntryMap(entries)[entries[i].0] == entries[i].1
  {
    var init := entries[..|entries| - 1];
    if i < |init| {
      assert EntryKeys(init) == EntryKeys(entries)[..|init|];
      EntryMapAt(init, i);
      assert entries[i].0 != entries[|entries| - 1].0 by {
        assert EntryKeys(entries)[i] != EntryKeys(entries)[|entries| - 1];
      }
    }
  }

  /** Loading what was saved gives back the same registry: the same usernames in the same order, the same entries. */
  lemma SaveThenLoad(order: seq<string>, chats: map<string, ChatInfo>)
    requires Distinct(order)
    requires forall u :: u in chats <==> u in order
    ensures EntryKeys(Snapshot(order, chats)) == order
    ensures EntryMap(Snapshot(order, chats)) == chats
  {
    var e := Snapshot(order, chats);
    assert EntryKeys(e) == order;
    forall u | u in chats ensures u in EntryMap(e) && EntryMap(e)[u] == chats[u] {
      var i :| 0 <= i < |order| && order[i] == u;
      EntryMapAt(e, i);
    }
  }

  /** Saving what was loaded gives back the saved entries, when their usernames are distinct. */
  lemma LoadThenSave(entries: seq<(string, ChatInfo)>)
    requires Distinct(EntryKeys(entries))
    ensures Snapshot(EntryKeys(entries), EntryMap(entries)) == entries
  {
    var r := Snapshot(EntryKeys(entries), EntryMap(entries));
    forall i | 0 <= i < |entries| ensures r[i] == entries[i] {
      EntryMapAt(entries, i);
    }
  }

  /** The username an added link registers and the entity it resolves to, or None when the add fails. */
  function AddTarget(link: string, resolve: string -> Option<Entity>): (r: Option<(string, Entity)>)
    ensures r.Some? <==> var u := ExtractUsername(link); u.Some? && u.value != [] && resolve(u.value).Some?
    ensures r.Some? ==> Some(r.value.0) == ExtractUsername(link) && Some(r.value.1) == resolve(r.value.0)
  {
    var u := ExtractUsername(link);
    if u.Some? && u.value != [] && resolve(u.value).Some? then Some((u.value, resolve(u.value).value)) else None
  }

  /** The registry after writing the entry of `u`: the entry replaced or appended, the watermark five minutes back. */
  ghost predicate ChatAdded(u: string, info: ChatInfo, now: int,
                            order0: seq<string>, chats0: map<string, ChatInfo>, lct0: map<string, int>,
                            order1: seq<string>, chats1: map<string, ChatInfo>, lct1: map<string, int>)
  {
    && chats1 == chats0[u := info]
    && lct1 == lct0[u := now - GraceSeconds]
    && order1 == if u in order0 then order0 else order0 + [u]
  }

  /** The registry after deleting `u`: gone from the entries and the order; its watermark gone unless `raised`. */
  ghost predicate ChatRemoved(u: string, raised: bool,
                              order0: seq<string>, chats0: map<string, ChatInfo>, lct0: map<string, int>,
                              order1: seq<string>, chats1: map<string, ChatInfo>, lct1: map<string, int>)
  {
    && chats1 == chats0 - {u}
    && order1 == Without(order0, u)
    && lct1 == lct0 - {u}
    && (raised <==> u !in lct0)
  }

  // ---------------------------------------------------------------------------
  // The parser object

  class TelegramParser {
    /** The keys of the monitored-chat dictionary in insertion order. */
    var chatOrder: seq<string>
    var monitoredChats: map<string, ChatInfo>
    /** Watermark per username; its keys can differ from the registry's once chats are restored. */
    var lastCheckTime: map<string, int>
    var keywords: seq<string>
    var handlers: seq<Sink>

    ghost predicate Valid()
      reads this
    {
      && Distinct(chatOrder)
      && (forall u :: u in monitoredChats <==> u in chatOrder)
      && (forall i :: 0 <= i < |keywords| ==> IsNormalKeyword(keywords[i]))
    }

    /** A parser with no chats and no handlers, whose keywords come from the keyword setting. */
    constructor (keywordSetting: string)
      ensures Valid()
      ensures chatOrder == [] && monitoredChats == map[] && lastCheckTime == map[]
      ensures keywords == Settings.ParseKeywords(keywordSetting) && handlers == []
    {
      chatOrder := [];
      monitoredChats := map[];
      lastCheckTime := map[];
      keywords := Settings.ParseKeywords(keywordSetting);
      handlers := [];
    }

    /** The number of monitored chats, `len(monitored_chats)`. */
    function ChatCount(): (n: nat)
      reads this
      requires Valid()
      ensures n == |monitoredChats| == |chatOrder|
    {
      assert monitoredChats.Keys == set u | u in chatOrder;
      DistinctCardinality(chatOrder);
      |chatOrder|
    }

    /** A copy of the registry as (username, entry) pairs in insertion order. */
    function GetMonitoredChats(): (r: seq<(string, ChatInfo)>)
      reads this
      requires Valid()
      ensures |r| == |monitoredChats|
      ensures forall i :: 0 <= i < |r| ==> r[i].0 in monitoredChats && r[i].1 == monitoredChats[r[i].0]
      ensures forall u :: u in monitoredChats ==> exists i :: 0 <= i < |r| && r[i].0 == u
      ensures forall i, j :: 0 <= i < j < |r| ==> r[i].0 != r[j].0
    {
      var r := Snapshot(chatOrder, monitoredChats);
      assert forall u :: u in monitoredChats ==> exists i :: 0 <= i < |r| && r[i].0 == u by {
        forall u | u in monitoredChats ensures exists i :: 0 <= i < |r| && r[i].0 == u {
          var i :| 0 <= i < |chatOrder| && chatOrder[i] == u;
          assert r[i].0 == u;
        }
      }
      var _ := ChatCount();
      r
    }

    /** The registry entry of a username, if it is monitored. */
    function GetChatInfo(username: string): (r: Option<ChatInfo>)
      reads this
      ensures r.Some? <==> username in monitoredChats
      ensures r.Some? ==> r.value == monitoredChats[username]
    {
      if username in monitoredChats then Some(monitoredChats[username]) else None
    }

    /**
     * Adds the chat a link names: the link must yield a non-empty username and
     * the username must resolve; the entry is then written (replacing any
     * earlier one) with a watermark five minutes before the clock. No capacity
     * check is made here.
     */
    method AddChat(link: string, resolve: string -> Option<Entity>, now: int) returns (ok: bool)
      requires Valid()
      modifies this
      ensures Valid()
      ensures ok <==> AddTarget(link, resolve).Some?
      ensures !ok ==>
        chatOrder == old(chatOrder) && monitoredChats == old(monitoredChats) && lastCheckTime == old(lastCheckTime)
      ensures ok ==> var (u, e) := AddTarget(link, resolve).value;
        ChatAdded(u, NewChatInfo(e, u, link, now), now, old(chatOrder), old(monitoredChats), old(lastCheckTime),
                  chatOrder, monitoredChats, lastCheckTime)
      ensures keywords == old(keywords) && handlers == old(handlers)
    {
      var username := ExtractUsername(link);
      if username.None? || username.value == [] {
        return false;
      }
      var u := username.value;
      var entity := resolve(u);
      if entity.None? {
        return false;
      }
      var info := NewChatInfo(entity.value, u, link, now);
      if u !in monitoredChats {
        chatOrder := chatOrder + [u];
      }
      monitoredChats := monitoredChats[u := info];
      lastCheckTime := lastCheckTime[u := now - GraceSeconds];
      ok := true;
    }

    /**
     * Removes the chat a link names from both dictionaries when it is
     * monitored. A monitored chat without a watermark loses its registry
     * entry and then the removal raises.
     */
    method RemoveChat(link: string) returns (outcome: RemoveOutcome)
      requires Valid()
      modifies this
      ensures Valid()
      ensures var u := ExtractUsername(link);
        outcome != NotMonitored <==> u.Some? && u.value in old(monitoredChats)
      ensures outcome == NotMonitored ==>
        chatOrder == old(chatOrder) && monitoredChats == old(monitoredChats) && lastCheckTime == old(lastCheckTime)
      ensures outcome != NotMonitored ==> var u := ExtractUsername(link).value;
        ChatRemoved(u, outcome == MissingWatermark, old(chatOrder), old(monitoredChats), old(lastCheckTime),
                    chatOrder, monitoredChats, lastCheckTime)
      ensures keywords == old(keywords) && handlers == old(handlers)
    {
      var username := ExtractUsername(link);
      if username.None? || username.value !in monitoredChats {
        return NotMonitored;
      }
      var u := username.value;
      monitoredChats := monitoredChats - {u};
      chatOrder := Without(chatOrder, u);
      if u !in lastCheckTime {
        return MissingWatermark;
      }
      lastCheckTime := lastCheckTime - {u};
      outcome := Removed;
    }

    /** Replaces the keyword set by the normalised form of `ks`. */
    method SetKeywords(ks: seq<string>)
      requires Valid()
      modifies this
      ensures Valid()
      ensures keywords == NormalizeKeywords(ks)
      ensures chatOrder == old(chatOrder) && monitoredChats == old(monitoredChats)
      ensures lastCheckTime == old(lastCheckTime) && handlers == old(handlers)
    {
      NormalizeKeywordsNormal(ks);
      keywords := NormalizeKeywords(ks);
    }

    /** Registers a handler after the existing ones. */
    method AddMessageHandler(h: Sink)
      requires Valid()
      modifies this
      ensures Valid()
      ensures handlers == old(handlers) + [h]
      ensures chatOrder == old(chatOrder) && monitoredChats == old(monitoredChats)
      ensures lastCheckTime == old(lastCheckTime) && keywords == old(keywords)
    {
      handlers := handlers + [h];
    }

    /** The message filter: false without keywords or text, else whether some keyword occurs in the lower-cased text. */
    method CheckMessageKeywords(text: string) returns (found: bool)
      ensures found == MessageMatches(keywords, text)
    {
      if keywords == [] || text == [] {
        return false;
      }
      var textLower := Lower(text);
      var i := 0;
      while i < |keywords|
        invariant 0 <= i <= |keywords|
        invariant forall j :: 0 <= j < i ==> !KeywordIn(keywords[j], text)
      {
        if Contains(textLower, keywords[i]) {
          assert keywords[i] in keywords && KeywordIn(keywords[i], text);
          return true;
        }
        i := i + 1;
      }
      found := false;
    }

    /** The keywords found in a text, in keyword-list order. */
    method FindMatchingKeywords(text: string) returns (found: seq<string>)
      ensures found == MatchingKeywords(keywords, text)
    {
      var textLower := Lower(text);
      found := [];
      var i := 0;
      while i < |keywords|
        invariant 0 <= i <= |keywords|
        invariant found == MatchingKeywords(keywords[..i], text)
      {
        assert keywords[..i + 1][..i] == keywords[..i];
        if Contains(textLower, keywords[i]) {
          found := found + [keywords[i]];
        }
        i := i + 1;
      }
      assert keywords[..i] == keywords;
    }

    /** Builds the record of a matched message and hands it to every handler; a raising handler does not stop the rest. */
    method HandleFoundMessage(m: Message, info: ChatInfo, raises: (Sink, MessageData) -> bool)
      returns (deliveries: seq<Delivery>)
      ensures deliveries == Dispatch(BuildMessageData(m, info, keywords), handlers, raises)
    {
      var found := FindMatchingKeywords(m.text);
      var sender := if m.senderId.Some? && m.senderId.value != 0 then m.senderId else None;
      var data := MessageData(info.title, info.username, info.link, m.text, m.id, m.date, sender, found);
      deliveries := [];
      var i := 0;
      while i < |handlers|
        invariant 0 <= i <= |handlers|
        invariant deliveries == Dispatch(data, handlers[..i], raises)
      {
        assert handlers[..i + 1][..i] == handlers[..i];
        var raised := raises(handlers[i], data);
        deliveries := deliveries + [Delivery(handlers[i], data, raised)];
        i := i + 1;
      }
      assert handlers[..i] == handlers;
    }

    /**
     * The walk over one fetched batch (newest first as fetched, so walked from
     * its end): each message newer than the watermark, with text and a
     * keyword match, goes to every handler, and is counted.
     */
    method ScanBatch(batch: seq<Message>, lastCheck: int, info: ChatInfo, raises: (Sink, MessageData) -> bool)
      returns (deliveries: seq<Delivery>, count: nat)
      ensures deliveries == PollDeliveries(batch, lastCheck, info, keywords, handlers, raises)
      ensures count == |Selected(Chronological(batch), lastCheck, keywords)|
    {
      deliveries, count := [], 0;
      var ks, sinks := keywords, handlers;
      var i := |batch|;
      while i > 0
        invariant 0 <= i <= |batch|
        invariant deliveries == DispatchAll(Selected(Chronological(batch[i..]), lastCheck, ks), info, ks, sinks, raises)
        invariant count == |Selected(Chronological(batch[i..]), lastCheck, ks)|
      {
        var m := batch[i - 1];
        ghost var seen := Chronological(batch[i..]);
        ChronologicalStep(batch, i);
        SelectedSnoc(seen, m, lastCheck, ks);
        var matched := false;
        if m.date > lastCheck && m.text != [] {
          matched := CheckMessageKeywords(m.text);
        }
        assert matched == Qualifies(m, lastCheck, ks);
        if matched {
          var d := HandleFoundMessage(m, info, raises);
          DispatchAllSnoc(Selected(seen, lastCheck, ks), m, info, ks, sinks, raises);
          deliveries := deliveries + d;
          count := count + 1;
        } else {
          assert Selected(seen + [m], lastCheck, ks) == Selected(seen, lastCheck, ks);
        }
        i := i - 1;
      }
      assert batch[0..] == batch;
    }

    /**
     * One chat's poll step. A completed fetch is walked oldest first; each
     * message newer than the watermark, with text and a keyword match, goes
     * to every handler; then the watermark becomes the clock reading. A
     * failed fetch is logged and leaves everything as it was.
     */
    method CheckChatMessages(username: string, info: ChatInfo, fetch: FetchOutcome, now: int,
                             raises: (Sink, MessageData) -> bool)
      returns (deliveries: seq<Delivery>, count: nat)
      requires Valid()
      modifies this
      ensures Valid()
      ensures chatOrder == old(chatOrder) && monitoredChats == old(monitoredChats)
      ensures keywords == old(keywords) && handlers == old(handlers)
      ensures fetch.FetchFailed? ==> deliveries == [] && count == 0 && lastCheckTime == old(lastCheckTime)
      ensures fetch.Fetched? ==>
        var watermark := Watermark(old(lastCheckTime), username, now);
        && deliveries == PollDeliveries(fetch.batch, watermark, info, keywords, handlers, raises)
        && count == |Selected(Chronological(fetch.batch), watermark, keywords)|
        && lastCheckTime == old(lastCheckTime)[username := now]
    {
      deliveries, count := [], 0;
      if fetch.FetchFailed? {
        return;
      }
      deliveries, count := ScanBatch(fetch.batch, Watermark(lastCheckTime, username, now), info, raises);
      lastCheckTime := lastCheckTime[username := now];
    }

    /**
     * One polling pass: every monitored chat in registry order gets its poll
     * step; a chat whose fetch fails does not stop the later ones.
     */
    method CheckAllChats(fetches: string -> FetchOutcome, clock: string -> int, raises: (Sink, MessageData) -> bool)
      returns (deliveries: seq<Delivery>)
      requires Valid()
      modifies this
      ensures Valid()
      ensures chatOrder == old(chatOrder) && monitoredChats == old(monitoredChats)
      ensures keywords == old(keywords) && handlers == old(handlers)
      ensures deliveries == PassDeliveries(Snapshot(chatOrder, monitoredChats), old(lastCheckTime), keywords, handlers, fetches, clock, raises)
      ensures lastCheckTime == Advance(old(lastCheckTime), chatOrder, fetches, clock)
    {
      var order, items := chatOrder, Snapshot(chatOrder, monitoredChats);
      deliveries := [];
      var i := 0;
      while i < |items|
        invariant 0 <= i <= |items| == |order|
        invariant Valid()
        invariant chatOrder == order && monitoredChats == old(monitoredChats)
        invariant keywords == old(keywords) && handlers == old(handlers)
        invariant lastCheckTime == Advance(old(lastCheckTime), order[..i], fetches, clock)
        invariant deliveries == PassDeliveries(items[..i], old(lastCheckTime), keywords, handlers, fetches, clock, raises)
      {
        var u, info := items[i].0, items[i].1;
        assert u == order[i];
        assert order[..i + 1][..i] == order[..i];
        assert items[..i + 1] == items[..i] + [items[i]];
        ConcatSnoc(items[..i], items[i], ChatStep(old(lastCheckTime), keywords, handlers, fetches, clock, raises));
        assert u !in order[..i];
        AdvanceElsewhere(old(lastCheckTime), order[..i], fetches, clock, u);
        var d, _ := CheckChatMessages(u, info, fetches(u), clock(u), raises);
        deliveries := deliveries + d;
        i := i + 1;
      }
      assert order[..i] == order;
      assert items[..i] == items;
    }
  }

  // ---------------------------------------------------------------------------
  // Properties of the poll step and the pass

  lemma ChronologicalStep<T>(batch: seq<T>, i: nat)
    requires 0 < i <= |batch|
    ensures Chronological(batch[i - 1..]) == Chronological(batch[i..]) + [batch[i - 1]]
  {
    assert batch[i - 1..][1..] == batch[i..];
  }

  lemma SelectedSnoc(msgs: seq<Message>, m: Message, watermark: int, ks: seq<string>)
    ensures Selected(msgs + [m], watermark, ks)
         == Selected(msgs, watermark, ks) + (if Qualifies(m, watermark, ks) then [m] else [])
  {
    assert (msgs + [m])[..|msgs|] == msgs;
  }

  lemma DispatchAllSnoc(msgs: seq<Message>, m: Message, info: ChatInfo, ks: seq<string>,
                        sinks: seq<Sink>, raises: (Sink, MessageData) -> bool)
    ensures DispatchAll(msgs + [m], info, ks, sinks, raises)
         == DispatchAll(msgs, info, ks, sinks, raises) + Dispatch(BuildMessageData(m, info, ks), sinks, raises)
  {
    assert (msgs + [m])[..|msgs|] == msgs;
  }

  /** A pass leaves the watermark of every chat outside `order` as it was. */
  lemma {:induction false} AdvanceElsewhere(lastCheckTime: map<string, int>, order: seq<string>,
                                            fetches: string -> FetchOutcome, clock: string -> int, u: string)
    requires u !in order
    ensures (u in Advance(lastCheckTime, order, fetches, clock)) == (u in lastCheckTime)
    ensures u in lastCheckTime ==> Advance(lastCheckTime, order, fetches, clock)[u] == lastCheckTime[u]
  {
    if order != [] {
      AdvanceElsewhere(lastCheckTime, order[..|order| - 1], fetches, clock, u);
    }
  }

  /** The selection keeps exactly the qualifying messages. */
  lemma {:induction false} SelectedMembers(msgs: seq<Message>, watermark: int, ks: seq<string>)
    ensures forall m :: m in Selected(msgs, watermark, ks) <==> m in msgs && Qualifies(m, watermark, ks)
  {
    if msgs != [] {
      var init := msgs[..|msgs| - 1];
      assert msgs == init + [msgs[|msgs| - 1]];
      SelectedMembers(init, watermark, ks);
    }
  }

  /** Selecting from a concatenation selects from each part in turn: chronological order is kept. */
  lemma {:induction false} SelectedAppend(a: seq<Message>, b: seq<Message>, watermark: int, ks: seq<string>)
    ensures Selected(a + b, watermark, ks) == Selected(a, watermark, ks) + Selected(b, watermark, ks)
    decreases |b|
  {
    if b == [] {
      assert a + b == a;
    } else {
      var b' := b[..|b| - 1];
      assert (a + b)[..|a + b| - 1] == a + b';
      SelectedAppend(a, b', watermark, ks);
    }
  }

  /** Every handler call of a step is for one of the step's messages and one of the registered handlers. */
  lemma {:induction false} DispatchAllMembers(msgs: seq<Message>, info: ChatInfo, ks: seq<string>,
                                              sinks: seq<Sink>, raises: (Sink, MessageData) -> bool)
    ensures forall d :: d in DispatchAll(msgs, info, ks, sinks, raises) ==>
      d.sink in sinks && exists m :: m in msgs && d.data == BuildMessageData(m, info, ks)
  {
    if msgs != [] {
      var init := msgs[..|msgs| - 1];
      var m := msgs[|msgs| - 1];
      assert msgs == init + [m];
      DispatchAllMembers(init, info, ks, sinks, raises);
      forall d | d in Dispatch(BuildMessageData(m, info, ks), sinks, raises)
        ensures d.sink in sinks && d.data == BuildMessageData(m, info, ks)
      {
        var i :| 0 <= i < |sinks| && Dispatch(BuildMessageData(m, info, ks), sinks, raises)[i] == d;
      }
    }
  }

  lemma MulStep(k: nat, n: nat, j: nat, total: nat)
    requires k < total && j < n
    ensures k * n + j < total * n
  {
    assert (k + 1) * n <= total * n;
  }

  /**
   * Message-major order: the call at position k·|sinks| + j hands the k-th
   * message to the j-th handler, whatever the other handlers did.
   */
  lemma {:induction false} DispatchAllAt(msgs: seq<Message>, info: ChatInfo, ks: seq<string>,
                                         sinks: seq<Sink>, raises: (Sink, MessageData) -> bool, k: nat, j: nat)
    requires k < |msgs| && j < |sinks|
    ensures 0 <= k * |sinks| + j < |DispatchAll(msgs, info, ks, sinks, raises)|
    ensures var data := BuildMessageData(msgs[k], info, ks);
      DispatchAll(msgs, info, ks, sinks, raises)[k * |sinks| + j] == Delivery(sinks[j], data, raises(sinks[j], data))
  {
    var n := |sinks|;
    var init := msgs[..|msgs| - 1];
    MulStep(k, n, j, |msgs|);
    if k < |init| {
      DispatchAllAt(init, info, ks, sinks, raises, k, j);
      MulStep(k, n, j, |init|);
      assert msgs[k] == init[k];
    } else {
      assert k * n == |init| * n;
    }
  }

  /**
   * Nothing stale, empty or unmatched reaches a handler: every call of a poll
   * step carries a message newer than the watermark, with text, at least one
   * found keyword, and goes to a registered handler.
   */
  lemma PollDeliversOnlyFresh(batch: seq<Message>, watermark: int, info: ChatInfo, ks: seq<string>,
                              sinks: seq<Sink>, raises: (Sink, MessageData) -> bool)
    ensures forall d :: d in PollDeliveries(batch, watermark, info, ks, sinks, raises) ==>
      && d.sink in sinks && d.data.date > watermark && d.data.messageText != []
      && d.data.foundKeywords != [] && d.data.chatUsername == info.username
  {
    var chrono := Chronological(batch);
    var sel := Selected(chrono, watermark, ks);
    DispatchAllMembers(sel, info, ks, sinks, raises);
    SelectedMembers(chrono, watermark, ks);
    forall d | d in PollDeliveries(batch, watermark, info, ks, sinks, raises)
      ensures d.data.date > watermark && d.data.messageText != [] && d.data.foundKeywords != []
    {
      var m :| m in sel && d.data == BuildMessageData(m, info, ks);
      MessageMatchesIffFound(ks, m.text);
    }
  }

  /** A message of the batch that qualifies reaches every handler. */
  lemma PollDeliversEveryMatch(batch: seq<Message>, watermark: int, info: ChatInfo, ks: seq<string>,
                               sinks: seq<Sink>, raises: (Sink, MessageData) -> bool, m: Message, s: Sink)
    requires m in batch && Qualifies(m, watermark, ks) && s in sinks
    ensures var data := BuildMessageData(m, info, ks);
      Delivery(s, data, raises(s, data)) in PollDeliveries(batch, watermark, info, ks, sinks, raises)
  {
    var chrono := Chronological(batch);
    var sel := Selected(chrono, watermark, ks);
    var i :| 0 <= i < |batch| && batch[i] == m;
    assert chrono[|batch| - 1 - i] == m;
    SelectedMembers(chrono, watermark, ks);
    assert m in sel;
    var k :| 0 <= k < |sel| && sel[k] == m;
    var j :| 0 <= j < |sinks| && sinks[j] == s;
    var all := DispatchAll(sel, info, ks, sinks, raises);
    assert all == PollDeliveries(batch, watermark, info, ks, sinks, raises);
    DispatchAllAt(sel, info, ks, sinks, raises, k, j);
    var idx := k * |sinks| + j;
    assert 0 <= idx < |all|;
    assert all[idx] in all;
  }

  /**
   * After a completed step at clock `now`, the chat's next step reads `now`
   * as its watermark, so a message already seen at or before `now` is never
   * handed out again.
   */
  lemma NoRedelivery(lastCheckTime: map<string, int>, username: string, now: int, later: int,
                     batch: seq<Message>, info: ChatInfo, ks: seq<string>,
                     sinks: seq<Sink>, raises: (Sink, MessageData) -> bool)
    ensures Watermark(lastCheckTime[username := now], username, later) == now
    ensures var next := Watermark(lastCheckTime[username := now], username, later);
      forall d :: d in PollDeliveries(batch, next, info, ks, sinks, raises) ==> d.data.date > now
  {
    PollDeliversOnlyFresh(batch, now, info, ks, sinks, raises);
  }

  /**
   * Adding a chat that is already monitored sets its watermark back to five
   * minutes before now. A matching message that the old watermark already
   * covered, and so would not be handed out again, is handed out once more
   * by the next poll when it is less than five minutes old.
   */
  lemma ReAddRedelivers(u: string, info: ChatInfo, now: int, later: int,
                        order0: seq<string>, chats0: map<string, ChatInfo>, lct0: map<string, int>,
                        order1: seq<string>, chats1: map<string, ChatInfo>, lct1: map<string, int>,
                        batch: seq<Message>, ks: seq<string>, sinks: seq<Sink>, raises: (Sink, MessageData) -> bool,
                        m: Message, s: Sink)
    requires ChatAdded(u, info, now, order0, chats0, lct0, order1, chats1, lct1)
    requires u in lct0 && now - GraceSeconds < m.date <= lct0[u]
    requires m in batch && m.text != [] && MessageMatches(ks, m.text) && s in sinks
    ensures lct1[u] < lct0[u]
    ensures forall d :: d in PollDeliveries(batch, Watermark(lct0, u, later), info, ks, sinks, raises) ==> d.data.date != m.date
    ensures var data := BuildMessageData(m, info, ks);
      Delivery(s, data, raises(s, data)) in PollDeliveries(batch, Watermark(lct1, u, later), info, ks, sinks, raises)
  {
    PollDeliversOnlyFresh(batch, lct0[u], info, ks, sinks, raises);
    assert Watermark(lct1, u, later) == now - GraceSeconds;
    PollDeliversEveryMatch(batch, now - GraceSeconds, info, ks, sinks, raises, m, s);
  }

  /** A pass in which every fetch fails hands nothing to the handlers. */
  lemma {:induction false} AllFailedPassIsEmpty(items: seq<(string, ChatInfo)>, lastCheckTime: map<string, int>,
                                                ks: seq<string>, sinks: seq<Sink>, fetches: string -> FetchOutcome,
                                                clock: string -> int, raises: (Sink, MessageData) -> bool)
    requires forall i :: 0 <= i < |items| ==> fetches(items[i].0).FetchFailed?
    ensures PassDeliveries(items, lastCheckTime, ks, sinks, fetches, clock, raises) == []
  {
    if items != [] {
      var init, last := items[..|items| - 1], items[|items| - 1];
      AllFailedPassIsEmpty(init, lastCheckTime, ks, sinks, fetches, clock, raises);
      assert init + [last] == items;
      ConcatSnoc(init, last, ChatStep(lastCheckTime, ks, sinks, fetches, clock, raises));
    }
  }

  lemma ConcatSnoc<T>(items: seq<T>, x: T, step: T -> seq<Delivery>)
    ensures Concat(items + [x], step) == Concat(items, step) + step(x)
  {
    assert (items + [x])[..|items|] == items;
  }

  lemma {:induction false} ConcatAppend<T>(a: seq<T>, b: seq<T>, step: T -> seq<Delivery>)
    ensures Concat(a + b, step) == Concat(a, step) + Concat(b, step)
    decreases |b|
  {
    if b == [] {
      assert a + b == a;
    } else {
      var b', last := b[..|b| - 1], b[|b| - 1];
      assert b == b' + [last];
      assert a + b == (a + b') + [last];
      ConcatSnoc(a + b', last, step);
      ConcatSnoc(b', last, step);
      ConcatAppend(a, b', step);
    }
  }

  /** A pass over a concatenation of chat lists is the pass over each list in turn. */
  lemma PassDeliveriesAppend(a: seq<(string, ChatInfo)>, b: seq<(string, ChatInfo)>,
                             lastCheckTime: map<string, int>, ks: seq<string>, sinks: seq<Sink>,
                             fetches: string -> FetchOutcome, clock: string -> int,
                             raises: (Sink, MessageData) -> bool)
    ensures PassDeliveries(a + b, lastCheckTime, ks, sinks, fetches, clock, raises)
         == PassDeliveries(a, lastCheckTime, ks, sinks, fetches, clock, raises)
          + PassDeliveries(b, lastCheckTime, ks, sinks, fetches, clock, raises)
  {
    ConcatAppend(a, b, ChatStep(lastCheckTime, ks, sinks, fetches, clock, raises));
  }

  /**
   * A chat whose fetch fails contributes no handler call and does not stop
   * the chats after it: the pass is what the pass without that chat would be.
   */
  lemma FailedChatIsSkipped(a: seq<(string, ChatInfo)>, u: string, info: ChatInfo, b: seq<(string, ChatInfo)>,
                            lastCheckTime: map<string, int>, ks: seq<string>, sinks: seq<Sink>,
                            fetches: string -> FetchOutcome, clock: string -> int,
                            raises: (Sink, MessageData) -> bool)
    requires fetches(u).FetchFailed?
    ensures PassDeliveries(a + [(u, info)] + b, lastCheckTime, ks, sinks, fetches, clock, raises)
         == PassDeliveries(a + b, lastCheckTime, ks, sinks, fetches, clock, raises)
  {
    var step := ChatStep(lastCheckTime, ks, sinks, fetches, clock, raises);
    var one := [(u, info)];
    assert step((u, info)) == [];
    assert Concat(one, step) == [] by {
      ConcatSnoc([], (u, info), step);
      assert [] + one == one;
    }
    ConcatAppend(a + one, b, step);
    ConcatAppend(a, one, step);
    ConcatAppend(a, b, step);
  }

  /**
   * After a pass, a chat whose fetch completed has its clock reading as
   * watermark; every other watermark is as before.
   */
  lemma {:induction false} AdvanceResult(lastCheckTime: map<string, int>, order: seq<string>,
                                         fetches: string -> FetchOutcome, clock: string -> int, u: string)
    requires Distinct(order)
    ensures u in order && fetches(u).Fetched? ==>
      u in Advance(lastCheckTime, order, fetches, clock) && Advance(lastCheckTime, order, fetches, clock)[u] == clock(u)
    ensures !(u in order && fetches(u).Fetched?) ==>
      (u in Advance(lastCheckTime, order, fetches, clock) <==> u in lastCheckTime)
      && (u in lastCheckTime ==> Advance(lastCheckTime, order, fetches, clock)[u] == lastCheckTime[u])
  {
    if order != [] {
      var init := order[..|order| - 1];
      assert order == init + [order[|order| - 1]];
      AdvanceResult(lastCheckTime, init, fetches, clock, u);
    }
  }

  /** With every clock reading at or after the chat's stored watermark, a pass never moves a watermark back. */
  lemma WatermarksNeverDecrease(lastCheckTime: map<string, int>, order: seq<string>,
                                fetches: string -> FetchOutcome, clock: string -> int)
    requires Distinct(order)
    requires forall u :: u in order && u in lastCheckTime ==> clock(u) >= lastCheckTime[u]
    ensures forall u :: u in lastCheckTime ==>
      u in Advance(lastCheckTime, order, fetches, clock) && Advance(lastCheckTime, order, fetches, clock)[u] >= lastCheckTime[u]
  {
    forall u | u in lastCheckTime
      ensures u in Advance(lastCheckTime, order, fetches, clock) && Advance(lastCheckTime, order, fetches, clock)[u] >= lastCheckTime[u]
    {
      AdvanceResult(lastCheckTime, order, fetches, clock, u);
    }
  }

  lemma SaleMentionsBtc()
    ensures KeywordIn("btc", "I sell BTC now")
  {
    var low := Lower("I sell BTC now");
    assert low[7] == 'b' && low[8] == 't' && low[9] == 'c';
    assert low[7..10] == "btc";
    assert OccursAt(low, "btc", 7);
  }

  lemma GreetingLacksBtc()
    ensures !KeywordIn("btc", "hello")
  {
    var low := Lower("hello");
    forall i | 0 <= i <= 2 ensures !OccursAt(low, "btc", i) {
      assert low[i] != 'b';
    }
  }

  /**
   * The keyword "btc" and a batch holding "I sell BTC now" (newer) and
   * "hello" (older), both after the watermark: only the first is selected,
   * and its found keywords are ["btc"].
   */
  lemma SingleMatchScenario()
    ensures var sale := Message(2, "I sell BTC now", 20, None);
      var greeting := Message(1, "hello", 10, None);
      && Selected(Chronological([sale, greeting]), 0, ["btc"]) == [sale]
      && MatchingKeywords(["btc"], sale.text) == ["btc"]
  {
    var sale := Message(2, "I sell BTC now", 20, None);
    var greeting := Message(1, "hello", 10, None);
    SaleMentionsBtc();
    GreetingLacksBtc();
    assert "btc" in ["btc"];
    assert Qualifies(sale, 0, ["btc"]);
    assert !Qualifies(greeting, 0, ["btc"]);
    assert Chronological([sale, greeting]) == [greeting, sale];
    SelectedSnoc([greeting], sale, 0, ["btc"]);
    SelectedSnoc([], greeting, 0, ["btc"]);
    assert [] + [greeting] == [greeting];
    assert [greeting] + [sale] == [greeting, sale];
    MatchingKeywordsSingle("btc", sale.text);
  }
}
