/**
 * The three notification handlers registered with the parser: a console
 * handler that prints a formatted notice, a file handler that appends one
 * log line per message, and a database handler that opens its storage on
 * first use. Clock readings and rendered dates are parameters.
 */
module Notifications {
  import opened Text
  import opened Parser

  /** Message text longer than this is cut in the console notice. */
  const ConsoleTextLimit: nat := 200
  /** Width of the rule printed around a console notice. */
  const RuleWidth: nat := 50

  const ConsoleTitle: string := "🔔 [Найдено сообщение по ключевому слову!]\n\n"
  const MessageLabel: string := "✉️ Сообщение: "
  const KeywordsLabel: string := "🔍 Найденные ключевые слова: "

  /** The console notice of a matched message; `dateStr` is the message date already rendered. */
  function FormatNotification(data: MessageData, dateStr: string): (r: string)
    ensures Contains(r, MessageLabel + Truncate(data.messageText, ConsoleTextLimit) + "\n")
    ensures Contains(r, KeywordsLabel + Join(data.foundKeywords, ", ") + "\n")
    ensures StartsWith(r, ConsoleTitle)
  {
    var head := ConsoleTitle
      + "📢 Чат: " + data.chatTitle + "\n"
      + "🆔 Ссылка: https://t.me/" + data.chatUsername + "\n";
    var messageLine := MessageLabel + Truncate(data.messageText, ConsoleTextLimit) + "\n";
    var keywordLine := KeywordsLabel + Join(data.foundKeywords, ", ") + "\n";
    var tail := "⏰ Время: " + dateStr;
    var r := head + messageLine + keywordLine + tail;
    assert OccursAt(r, messageLine, |head|) by {
      assert r[|head|..|head| + |messageLine|] == messageLine;
    }
    assert OccursAt(r, keywordLine, |head + messageLine|) by {
      assert r == (head + messageLine) + keywordLine + tail;
    }
    assert r[..|ConsoleTitle|] == ConsoleTitle;
    r
  }

  /** What the console handler prints for one message: a rule, the notice, a rule. */
  function ConsoleOutput(data: MessageData, dateStr: string): (lines: seq<string>)
    ensures |lines| == 3 && lines[1] == FormatNotification(data, dateStr)
    ensures |lines[0]| == RuleWidth + 1 && |lines[2]| == RuleWidth + 1
  {
    ["\n" + Repeat("=", RuleWidth), FormatNotification(data, dateStr), Repeat("=", RuleWidth) + "\n"]
  }

  /** The field a log line ends with: the message text with every newline made a space. */
  function LogMessageField(text: string): (r: string)
    ensures |r| == |text|
    ensures '\n' !in r
    ensures forall i :: 0 <= i < |text| && text[i] != '\n' ==> r[i] == text[i]
    ensures forall i :: 0 <= i < |text| && text[i] == '\n' ==> r[i] == ' '
  {
    var r := ReplaceChar(text, '\n', ' ');
    assert '\n' !in r by {
      forall i | 0 <= i < |r| ensures r[i] != '\n' { }
    }
    r
  }

  /**
   * One line of the log file; `timestamp` is the clock reading already
   * rendered. The line opens with the bracketed time and the chat's title
   * and username, carries the comma-joined keywords, and ends with the
   * message text on one line.
   */
  function FormatLogEntry(data: MessageData, timestamp: string): (r: string)
    ensures StartsWith(r, "[" + timestamp + "] CHAT: " + data.chatTitle + " (@" + data.chatUsername + ") | ")
    ensures Contains(r, "KEYWORDS: " + Join(data.foundKeywords, ",") + " | ")
    ensures var m := LogMessageField(data.messageText);
      |m| <= |r| && r[|r| - |m|..] == m
  {
    var head := "[" + timestamp + "] CHAT: " + data.chatTitle + " (@" + data.chatUsername + ") | ";
    var keywordField := "KEYWORDS: " + Join(data.foundKeywords, ",") + " | ";
    var prefix := "MESSAGE: ";
    var m := LogMessageField(data.messageText);
    ThreeParts(head, keywordField, prefix + m);
    ThreeParts(head + keywordField, prefix, m);
    assert head + keywordField + (prefix + m) == head + keywordField + prefix + m;
    head + keywordField + prefix + m
  }

  /** Without a newline in the clock reading, the chat's names or a keyword, every entry is exactly one line. */
  lemma LogEntryIsOneLine(data: MessageData, timestamp: string)
    requires '\n' !in timestamp && '\n' !in data.chatTitle && '\n' !in data.chatUsername
    requires forall i :: 0 <= i < |data.foundKeywords| ==> '\n' !in data.foundKeywords[i]
    ensures '\n' !in FormatLogEntry(data, timestamp)
  {
    JoinAvoids(data.foundKeywords, ",", '\n');
  }

  /** The keywords field of a log line splits back into the found keywords, in order, when none holds a comma. */
  lemma LogKeywordsRoundTrip(found: seq<string>)
    requires found != []
    requires forall i :: 0 <= i < |found| ==> ',' !in found[i]
    ensures Split(Join(found, ","), ',') == found
  {
    SplitJoin(found, ',');
  }

  /** The file handler: every message appends its log line; a failed write is logged and nothing propagates. */
  class FileSink {
    /** The log file's contents. */
    var written: string

    /** The handler only remembers the file name; whatever the file already holds stays, since writes append. */
    constructor (existing: string)
      ensures written == existing
    {
      written := existing;
    }

    method HandleFoundMessage(data: MessageData, timestamp: string, writeSucceeds: bool)
      modifies this
      ensures written == if writeSucceeds then old(written) + FormatLogEntry(data, timestamp) + "\n" else old(written)
    {
      if writeSucceeds {
        written := written + FormatLogEntry(data, timestamp) + "\n";
      }
    }
  }

  /**
   * The database handler: storage is initialised on the first message and
   * again on each later one until an initialisation succeeds; a failed
   * initialisation skips the save. Failures are logged and nothing propagates.
   */
  class DatabaseSink {
    var initialized: bool
    /** The messages the storage holds, including those saved before this handler existed. */
    var saved: seq<MessageData>

    /** A new handler starts uninitialised over a storage that keeps what it already holds. */
    constructor (existing: seq<MessageData>)
      ensures !initialized && saved == existing
    {
      initialized := false;
      saved := existing;
    }

    method HandleFoundMessage(data: MessageData, initSucceeds: bool, saveSucceeds: bool)
      returns (calledInitialize: bool)
      modifies this
      ensures calledInitialize <==> !old(initialized)
      ensures initialized <==> old(initialized) || initSucceeds
      ensures saved == if initialized && saveSucceeds then old(saved) + [data] else old(saved)
    {
      calledInitialize := !initialized;
      if !initialized {
        if !initSucceeds {
          return;
        }
        initialized := true;
      }
      if saveSucceeds {
        saved := saved + [data];
      }
    }
  }
}
