/**
 * The self-contained helpers of the chatbot's utility classes: text truncation, upload
 * validation, the bounded conversation archive and event log kept in `localStorage`
 * (modelled as objects holding the stored list), the usage counters, and the
 * attempt/backoff policy of request retries.
 */
module Utils {
  import opened Wrappers
  import opened Text

  // ---------------------------------------------------------------- truncateText

  /** The default `maxLength` of `truncateText`. */
  const DefaultTruncateLength: int := 100

  /**
   * `truncateText`: the text itself when it fits in `maxLength`, otherwise its first
   * `maxLength` characters (none when `maxLength` is negative, as `substring` clamps)
   * followed by "...".
   */
  function TruncateText(text: string, maxLength: int := DefaultTruncateLength): (r: string)
    ensures |text| <= maxLength ==> r == text
    ensures |text| > maxLength ==>
      var kept := if maxLength < 0 then 0 else maxLength;
      |r| == kept + 3 && r[..kept] == text[..kept] && r[kept..] == "..."
  {
    if |text| <= maxLength then text
    else if maxLength < 0 then "..."
    else Ellipsize(text, maxLength)
  }

  /** Truncating an already truncated text changes nothing. */
  lemma TruncateTextIdempotent(text: string, maxLength: int)
    ensures TruncateText(TruncateText(text, maxLength), maxLength) == TruncateText(text, maxLength)
  {
    var r := TruncateText(text, maxLength);
    if |text| > maxLength {
      var kept := if maxLength < 0 then 0 else maxLength;
      assert r[..kept] == text[..kept];
      assert TruncateText(r, maxLength) == r[..kept] + "...";
      assert r == r[..kept] + r[kept..];
    }
  }

  // ---------------------------------------------------------------- validateFile

  /** The properties of a browser `File` that validation looks at. */
  datatype FileInfo = FileInfo(name: string, size: int, mimeType: string)

  /** The `options` object: each field that is absent takes its default. */
  datatype ValidateOptions = ValidateOptions(maxSize: Option<int>, allowedTypes: Option<seq<string>>, allowedExtensions: Option<seq<string>>)

  /** `{}`: every option at its default. */
  const NoOptions: ValidateOptions := ValidateOptions(None, None, None)

  const DefaultMaxSize: int := 10 * 1024 * 1024
  const DefaultAllowedTypes: seq<string> := ["application/pdf"]
  const DefaultAllowedExtensions: seq<string> := [".pdf"]

  /** The three rejections, with the limit each error message reports. */
  datatype FileError =
    | FileTooLarge(maxSize: int)
    | UnsupportedType(allowedTypes: seq<string>)
    | UnsupportedExtension(allowedExtensions: seq<string>)

  function OrDefault<T>(o: Option<T>, default: T): T {
    if o.Some? then o.value else default
  }

  /**
   * `'.' + name.split('.').pop().toLowerCase()`: a dot followed by the lower-cased text
   * after the last dot of the name, or the whole lower-cased name when it has no dot.
   */
  function Extension(name: string): (r: string)
    ensures |r| >= 1 && r[0] == '.' && '.' !in r[1..]
  {
    var pieces := Split(name, '.');
    SplitPiecesLackSeparator(name, '.');
    var last := pieces[|pieces| - 1];
    assert forall i :: 0 <= i < |last| ==> ToLowerChar(last[i]) == '.' ==> last[i] == '.';
    "." + ToLowerAscii(last)
  }

  /** The last piece of `a + [c] + b` split on `c` is `b` when `b` has no `c`. */
  lemma {:induction false} SplitLastPiece(a: string, b: string, c: char)
    requires c !in b
    ensures var pieces := Split(a + [c] + b, c);
            pieces[|pieces| - 1] == b
    decreases |a|
  {
    var s := a + [c] + b;
    var i := FindChar(s, c);
    assert s[|a|] == c;
    if i < |a| {
      var tail := a[i + 1..] + [c] + b;
      assert s[i + 1..] == tail;
      var rest := Split(tail, c);
      assert Split(s, c) == [s[..i]] + rest;
      SplitLastPiece(a[i + 1..], b, c);
      assert ([s[..i]] + rest)[|rest|] == rest[|rest| - 1];
    } else {
      assert s[i + 1..] == b;
      SplitWithoutSeparator(b, c);
    }
  }

  /** A name `base.ext` whose `ext` has no dot has the extension `.ext`, lower-cased. */
  lemma ExtensionOfDottedName(base: string, ext: string)
    requires '.' !in ext
    ensures Extension(base + "." + ext) == "." + ToLowerAscii(ext)
  {
    SplitLastPiece(base, ext, '.');
  }

  /** A name without a dot is its own last piece, so its "extension" is the whole lower-cased name. */
  lemma ExtensionOfUndottedName(name: string)
    requires '.' !in name
    ensures Extension(name) == "." + ToLowerAscii(name)
  {
    SplitWithoutSeparator(name, '.');
  }

  /**
   * `validateFile`: size first, then MIME type, then extension; the first check that fails
   * is the error thrown, and the file is accepted exactly when all three pass. A size
   * equal to the limit passes.
   */
  function ValidateFile(file: FileInfo, options: ValidateOptions := NoOptions): (r: Outcome<FileError>)
    ensures var maxSize := OrDefault(options.maxSize, DefaultMaxSize);
            var types := OrDefault(options.allowedTypes, DefaultAllowedTypes);
            var extensions := OrDefault(options.allowedExtensions, DefaultAllowedExtensions);
            && (r == Pass <==> file.size <= maxSize && file.mimeType in types && Extension(file.name) in extensions)
            && (r == Fail(FileTooLarge(maxSize)) <==> file.size > maxSize)
            && (r == Fail(UnsupportedType(types)) <==> file.size <= maxSize && file.mimeType !in types)
            && (r == Fail(UnsupportedExtension(extensions)) <==>
                  file.size <= maxSize && file.mimeType in types && Extension(file.name) !in extensions)
  {
    var maxSize := OrDefault(options.maxSize, DefaultMaxSize);
    var types := OrDefault(options.allowedTypes, DefaultAllowedTypes);
    var extensions := OrDefault(options.allowedExtensions, DefaultAllowedExtensions);
    if file.size > maxSize then Fail(FileTooLarge(maxSize))
    else if file.mimeType !in types then Fail(UnsupportedType(types))
    else if Extension(file.name) !in extensions then Fail(UnsupportedExtension(extensions))
    else Pass
  }

  /**
   * With the default options a PDF of at most 10 MiB named `base.pdf` or `base.PDF`
   * passes, and so does one named just "pdf", whose whole name is taken as its extension.
   */
  lemma DefaultValidationAcceptsPdf(base: string, size: int)
    requires size <= 10 * 1024 * 1024
    ensures ValidateFile(FileInfo(base + ".pdf", size, "application/pdf")) == Pass
    ensures ValidateFile(FileInfo(base + ".PDF", size, "application/pdf")) == Pass
    ensures ValidateFile(FileInfo("pdf", size, "application/pdf")) == Pass
  {
    PdfExtension(base + ".pdf", base, "pdf");
    PdfExtension(base + ".PDF", base, "PDF");
    SplitWithoutSeparator("pdf", '.');
    assert ToLowerAscii("pdf") == "pdf";
    AcceptsPdf(FileInfo(base + ".pdf", size, "application/pdf"));
    AcceptsPdf(FileInfo(base + ".PDF", size, "application/pdf"));
    AcceptsPdf(FileInfo("pdf", size, "application/pdf"));
  }

  lemma PdfExtension(name: string, base: string, ext: string)
    requires ext == "pdf" || ext == "PDF"
    requires name == base + "." + ext
    ensures Extension(name) == ".pdf"
  {
    ExtensionOfDottedName(base, ext);
    LowerPdf(ext);
  }

  lemma LowerPdf(ext: string)
    requires ext == "pdf" || ext == "PDF"
    ensures ToLowerAscii(ext) == "pdf"
  {
    var r := ToLowerAscii(ext);
    assert ext[0] in "pP" && ext[1] in "dD" && ext[2] in "fF";
    assert r[0] == 'p' && r[1] == 'd' && r[2] == 'f';
  }

  lemma AcceptsPdf(file: FileInfo)
    requires file.size <= DefaultMaxSize && file.mimeType == "application/pdf" && Extension(file.name) == ".pdf"
    ensures ValidateFile(file) == Pass
  {
  }

  // ---------------------------------------------------------------- bounded lists

  /**
   * `list.push(x)` followed by one `shift()` when the length then exceeds `limit`. From a
   * list within the limit the result stays within it, ends with `x`, and keeps the most
   * recent earlier entries.
   */
  function PushBounded<T>(xs: seq<T>, x: T, limit: nat): (r: seq<T>)
    requires limit > 0
    ensures 1 <= |r| <= |xs| + 1 && r[|r| - 1] == x
    ensures r == (xs + [x])[|xs| + 1 - |r|..]
    ensures |xs| < limit ==> r == xs + [x]
    ensures |xs| <= limit ==> |r| <= limit
    ensures |xs| >= limit ==> |r| == |xs|
  {
    var pushed := xs + [x];
    if |pushed| > limit then pushed[1..] else pushed
  }

  // ---------------------------------------------------------------- conversations

  /** One chat message as the conversation stores it. */
  datatype Message = Message(sender: string, content: string, timestamp: string)

  /** A saved conversation: its messages, when it was saved and its generated id. */
  datatype Conversation = Conversation(messages: seq<Message>, timestamp: string, id: string)

  /** How many conversations `saveConversation` keeps. */
  const MaxConversations: nat := 10

  /** `saved.filter(conv => conv.id !== id)`. */
  function WithoutId(saved: seq<Conversation>, id: string): (r: seq<Conversation>)
    ensures |r| <= |saved|
  {
    if saved == [] then []
    else
      var front := WithoutId(saved[..|saved| - 1], id);
      var last := saved[|saved| - 1];
      if last.id != id then front + [last] else front
  }

  /** Deleting keeps exactly the conversations whose id differs. */
  lemma {:induction false} WithoutIdMembership(saved: seq<Conversation>, id: string, c: Conversation)
    ensures c in WithoutId(saved, id) <==> c in saved && c.id != id
  {
    if saved != [] {
      var front := saved[..|saved| - 1];
      WithoutIdMembership(front, id, c);
      assert saved == front + [saved[|saved| - 1]];
    }
  }

  lemma WithoutIdSnoc(s: seq<Conversation>, x: Conversation, id: string)
    ensures WithoutId(s + [x], id) == WithoutId(s, id) + (if x.id != id then [x] else [])
  {
    assert (s + [x])[..|s|] == s;
  }

  /** Filtering distributes over concatenation, so the kept conversations stay in their order. */
  lemma {:induction false} WithoutIdDistributes(a: seq<Conversation>, b: seq<Conversation>, id: string)
    ensures WithoutId(a + b, id) == WithoutId(a, id) + WithoutId(b, id)
    decreases |b|
  {
    if b == [] {
      assert a + b == a;
    } else {
      var m := |b| - 1;
      var keep := if b[m].id != id then [b[m]] else [];
      calc {
        WithoutId(a + b, id);
        { assert a + b == (a + b[..m]) + [b[m]]; }
        WithoutId((a + b[..m]) + [b[m]], id);
        { WithoutIdSnoc(a + b[..m], b[m], id); }
        WithoutId(a + b[..m], id) + keep;
        { WithoutIdDistributes(a, b[..m], id); }
        (WithoutId(a, id) + WithoutId(b[..m], id)) + keep;
        WithoutId(a, id) + (WithoutId(b[..m], id) + keep);
        { assert b == b[..m] + [b[m]]; WithoutIdSnoc(b[..m], b[m], id); }
        WithoutId(a, id) + WithoutId(b, id);
      }
    }
  }

  /** Deleting an id no conversation has changes nothing. */
  lemma {:induction false} WithoutAbsentId(saved: seq<Conversation>, id: string)
    requires forall i :: 0 <= i < |saved| ==> saved[i].id != id
    ensures WithoutId(saved, id) == saved
  {
    if saved != [] {
      WithoutAbsentId(saved[..|saved| - 1], id);
    }
  }

  /** The `gokseong_conversations` entry of `localStorage`: the saved conversations, oldest first. */
  class ConversationStore {
    var saved: seq<Conversation>

    /** An empty store: `getSavedConversations()` yields `[]` when nothing is stored. */
    constructor ()
      ensures saved == []
    {
      saved := [];
    }

    /**
     * `saveConversation`: append the conversation with its timestamp and generated id (both
     * supplied here), drop the oldest once the list exceeds ten, and return the id.
     */
    method SaveConversation(messages: seq<Message>, timestamp: string, id: string) returns (savedId: string)
      modifies this
      ensures saved == PushBounded(old(saved), Conversation(messages, timestamp, id), MaxConversations)
      ensures savedId == id
    {
      var conversation := Conversation(messages, timestamp, id);
      var list := saved;
      list := list + [conversation];
      if |list| > MaxConversations {
        list := list[1..];
      }
      saved := list;
      savedId := conversation.id;
    }

    /** `deleteConversation`: store the saved list without the conversations carrying `id`. */
    method DeleteConversation(id: string)
      modifies this
      ensures saved == WithoutId(old(saved), id)
    {
      saved := WithoutId(saved, id);
    }
  }

  // ---------------------------------------------------------------- analytics

  /** One tracked event: its name, time, payload (as its JSON text) and session id. */
  datatype EventRecord = EventRecord(event: string, timestamp: string, data: string, sessionId: string)

  /** How many events `trackEvent` keeps. */
  const MaxEvents: nat := 100

  /** What `getUsageStats` returns. */
  datatype UsageStats = UsageStats(totalEvents: nat, messagesSent: nat, settingsChanged: nat, filesUploaded: nat, sessionsStarted: nat)

  /**
   * `events.filter(e => e.event === name).length`, defined by recursion on the last event;
   * its properties are stated in `CountersWithinTotal` and `CountAfterTrack`.
   */
  function CountEvent(events: seq<EventRecord>, name: string): (n: nat)
    ensures n <= |events|
  {
    if events == [] then 0
    else CountEvent(events[..|events| - 1], name) + (if events[|events| - 1].event == name then 1 else 0)
  }

  /** Counting from the front: the first event's share plus the count of the rest. */
  lemma {:induction false} CountEventFirst(events: seq<EventRecord>, name: string)
    requires events != []
    ensures CountEvent(events, name) == (if events[0].event == name then 1 else 0) + CountEvent(events[1..], name)
    decreases |events|
  {
    var m := |events| - 1;
    if m > 0 {
      CountEventFirst(events[..m], name);
      assert events[..m][1..] == events[1..][..m - 1];
      assert events[..m][0] == events[0];
    }
  }

  /** Events of different names are counted apart, so the three counters never exceed the total. */
  lemma {:induction false} CountersWithinTotal(events: seq<EventRecord>)
    ensures CountEvent(events, "message_sent") + CountEvent(events, "settings_changed") + CountEvent(events, "file_uploaded") <= |events|
  {
    if events != [] {
      CountersWithinTotal(events[..|events| - 1]);
    }
  }

  /** `new Set(events.map(e => e.sessionId))`. */
  function SessionIds(events: seq<EventRecord>): (r: set<string>)
    ensures |r| <= |events|
    ensures events != [] ==> |r| >= 1
  {
    if events == [] then {} else SessionIds(events[..|events| - 1]) + {events[|events| - 1].sessionId}
  }

  /** The distinct sessions are exactly the session ids that some event carries. */
  lemma {:induction false} SessionIdsMembership(events: seq<EventRecord>)
    ensures forall s :: s in SessionIds(events) <==> exists i :: 0 <= i < |events| && events[i].sessionId == s
  {
    if events != [] {
      var front := events[..|events| - 1];
      SessionIdsMembership(front);
      assert forall i :: 0 <= i < |front| ==> front[i] == events[i];
    }
  }

  /** The `analytics_events` entry of `localStorage`: the tracked events, oldest first. */
  class EventLog {
    var events: seq<EventRecord>

    constructor ()
      ensures events == []
    {
      events := [];
    }

    /**
     * `trackEvent`: append the event with its time and session id (supplied here) and drop
     * the oldest once more than 100 are stored.
     */
    method TrackEvent(event: string, data: string, timestamp: string, sessionId: string)
      modifies this
      ensures events == PushBounded(old(events), EventRecord(event, timestamp, data, sessionId), MaxEvents)
    {
      var eventData := EventRecord(event, timestamp, data, sessionId);
      var list := events;
      list := list + [eventData];
      if |list| > MaxEvents {
        list := list[1..];
      }
      events := list;
    }

    /**
     * `getUsageStats`: the number of stored events, how many are message, settings and
     * upload events, and how many distinct sessions they come from.
     */
    function GetUsageStats(): (stats: UsageStats)
      reads this
      ensures stats.totalEvents == |events|
      ensures stats.messagesSent + stats.settingsChanged + stats.filesUploaded <= stats.totalEvents
      ensures stats.sessionsStarted <= stats.totalEvents
      ensures stats.totalEvents > 0 ==> stats.sessionsStarted >= 1
    {
      CountersWithinTotal(events);
      UsageStats(|events|, CountEvent(events, "message_sent"), CountEvent(events, "settings_changed"),
                 CountEvent(events, "file_uploaded"), |SessionIds(events)|)
    }
  }

  /**
   * How tracking one event moves a counter: it adds the new event's share and, when the
   * log was full, loses the share of the oldest event, which is shifted out.
   */
  lemma CountAfterTrack(events: seq<EventRecord>, e: EventRecord, name: string)
    ensures var after := PushBounded(events, e, MaxEvents);
            var added := if e.event == name then 1 else 0;
            && (|events| < MaxEvents ==> CountEvent(after, name) == CountEvent(events, name) + added)
            && (|events| >= MaxEvents ==>
                  CountEvent(after, name) == CountEvent(events, name) + added - (if events[0].event == name then 1 else 0))
  {
    var pushed := events + [e];
    assert pushed[..|events|] == events;
    if |events| >= MaxEvents {
      CountEventFirst(pushed, name);
    }
  }

  // ---------------------------------------------------------------- retryRequest

  /** How `retryRequest` ends: the first successful value, the last error rethrown, or `undefined` when no attempt is made. */
  datatype RetryResult<T, E> = Returned(value: T) | Thrown(error: E) | Undefined

  function Pow2(n: nat): (r: nat)
    ensures r >= 1
  {
    if n == 0 then 1 else 2 * Pow2(n - 1)
  }

  /**
   * The waits before attempts 2..n+1: `delay * 2^i` after failed attempt `i + 1`. The
   * contract is the definition of this `map`; `RetryRequest` is proved to wait exactly these.
   */
  function Backoff(delay: int, n: nat): (r: seq<int>)
    ensures |r| == n
    ensures forall i :: 0 <= i < n ==> r[i] == delay * Pow2(i)
  {
    seq(n, i requires 0 <= i < n => delay * Pow2(i))
  }

  /** The first of the first `n` attempts that succeeds, if any. */
  function FirstOk<T, E>(attempt: nat -> Result<T, E>, n: nat): (r: Option<nat>)
    ensures r.Some? ==> r.value < n && attempt(r.value).Ok? && forall j :: 0 <= j < r.value ==> attempt(j).Err?
    ensures r.None? ==> forall j :: 0 <= j < n ==> attempt(j).Err?
  {
    if n == 0 then None
    else match FirstOk(attempt, n - 1)
      case Some(i) => Some(i)
      case None => if attempt(n - 1).Ok? then Some(n - 1) else None
  }

  /**
   * `retryRequest`: attempt `i` (counting from 0) gives `requestFn(i)`. The first success is
   * returned; a failure of the last of `maxRetries` attempts is rethrown; after each other
   * failure it waits `delay * 2^i`. With `maxRetries <= 0` no attempt is made.
   */
  method RetryRequest<T, E>(requestFn: nat -> Result<T, E>, maxRetries: int := 3, delay: int := 1000)
    returns (result: RetryResult<T, E>, attempts: nat, waits: seq<int>)
    ensures maxRetries <= 0 ==> result == Undefined && attempts == 0 && waits == []
    ensures maxRetries > 0 ==> 1 <= attempts <= maxRetries && waits == Backoff(delay, attempts - 1)
    ensures maxRetries > 0 && FirstOk(requestFn, maxRetries).Some? ==>
      attempts == FirstOk(requestFn, maxRetries).value + 1 && result == Returned(requestFn(attempts - 1).value)
    ensures maxRetries > 0 && FirstOk(requestFn, maxRetries).None? ==>
      attempts == maxRetries && result == Thrown(requestFn(maxRetries - 1).error)
  {
    attempts := 0;
    waits := [];
    var i := 0;
    while i < maxRetries
      invariant 0 <= i == attempts
      invariant maxRetries > 0 ==> i < maxRetries
      invariant maxRetries <= 0 ==> i == 0 && waits == []
      invariant forall j :: 0 <= j < i ==> requestFn(j).Err?
      invariant waits == Backoff(delay, i)
    {
      attempts := attempts + 1;
      var outcome := requestFn(i);
      if outcome.Ok? {
        return Returned(outcome.value), attempts, waits;
      }
      if i == maxRetries - 1 {
        return Thrown(outcome.error), attempts, waits;
      }
      waits := waits + [delay * Pow2(i)];
      i := i + 1;
    }
    result := Undefined;
  }
}
