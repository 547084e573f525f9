/**
 The line-oriented transcript parser: unwrapping each agent's envelope, the fold over the session
 metadata, the numbering of the items, and the parse of appended lines only.

 An item is kept as its ordinal and the payload it is made from; its role, type, text and raw JSON
 are a function of that payload. JSON text and time stamps are read by two given functions.
 */
module ChatTranscript {
  import opened Common
  import opened Text
  import opened Json

  datatype Source = Codex | ClaudeCode | Gemini | Other

  /** decode reads one line as an object, time reads a time stamp. */
  datatype Codec = Codec(decode: string -> Option<Payload>, time: string -> Option<int>)

  /** basename is empty unless the file is a Claude transcript; byPath says that it lies in a
      subagents directory. */
  datatype Env = Env(source: Source, fallback: string, basename: string, byPath: bool)

  datatype Item = Item(ordinal: nat, payload: Payload)

  datatype Session = Session(
    id: string,
    parent: Option<string>,
    cwd: Option<string>,
    title: Option<string>,
    started: Option<int>,
    last: Option<int>)

  // ----- envelopes

  /** unwrapChatLine: the item and the session metadata a line carries, if any. */
  datatype Row = Row(item: Option<Payload>, meta: Option<Payload>)

  function WithDefault(p: Payload, line: Payload, key: string): Payload {
    if key !in p && key in line then p[key := line[key]] else p
  }

  function GeminiItem(line: Payload, role: string, itemType: string): Payload {
    line["role" := Str(role)]["item_type" := Str(itemType)] - {"type"}
  }

  function Unwrap(source: Source, line: Payload): Row {
    var outer := StringOr(FirstString(line, ["type"]), "");
    match source
    case Codex =>
      var inner := ObjectField(line, "payload");
      if outer == "session_meta" || outer == "turn_context" then Row(None, inner)
      else if outer == "response_item" then
        if inner.None? then Row(None, None)
        else Row(Some(WithDefault(inner.value, line, "timestamp")), inner)
      else if outer == "event_msg" then Row(None, None)
      else Row(Some(line), Some(line))
    case ClaudeCode =>
      if (outer == "user" || outer == "assistant") && ObjectField(line, "message").Some? then
        var message := ObjectField(line, "message").value;
        var flat := WithDefault(WithDefault(WithDefault(message, line, "timestamp"), line, "cwd"), line, "sessionId");
        Row(Some(if "role" in flat then flat else flat["role" := Str(outer)]), Some(line))
      else if "sessionId" in line then Row(None, None)
      else Row(Some(line), Some(line))
    case Gemini =>
      var kind := Lower(outer);
      if kind == "gemini" then Row(Some(GeminiItem(line, "assistant", "message")), None)
      else if kind == "user" then Row(Some(GeminiItem(line, "user", "message")), None)
      else if kind == "info" || kind == "error" then Row(Some(GeminiItem(line, kind, "event")), None)
      else Row(Some(line), None)
    case Other => Row(Some(line), Some(line))
  }

  predicate HasItem(p: Payload) { "content" in p || "text" in p || "message" in p }

  // ----- session metadata

  function Touch(s: Session, t: int): Session {
    s.(started := if s.started.None? || t < s.started.value then Some(t) else s.started,
       last := if s.last.None? || t > s.last.value then Some(t) else s.last)
  }

  /** The first time stamp under the usual keys that can be read. */
  function TimeAt(c: Codec, p: Payload, keys: seq<string>): Option<int> {
    if keys == [] then None
    else
      var v := StringField(p, keys[0]);
      if v.Some? && c.time(v.value).Some? then c.time(v.value) else TimeAt(c, p, keys[1..])
  }

  function TimeOf(c: Codec, p: Payload): Option<int> { TimeAt(c, p, ["timestamp", "created_at", "started_at"]) }

  function TouchIf(s: Session, t: Option<int>): Session { if t.Some? then Touch(s, t.value) else s }

  /** An id is taken once, over the fallback; after that only the same id is seen. */
  function TakeId(s: Session, id: Option<string>, fallback: string): Session {
    if id.Some? && (s.id == fallback || s.id == id.value) then s.(id := id.value) else s
  }

  /** applySessionFields: cwd and title are last-wins, except that a fork keeps what its own header
      has set. */
  function ApplySession(c: Codec, s: Session, p: Payload, fallback: string): Session {
    var s1 := TakeId(s, FirstString(p, ["session_id", "conversation_id", "chat_id", "id"]), fallback);
    var s2 := if s1.parent.None? then s1.(parent := StringField(p, "forked_from_id")) else s1;
    var locked := s2.parent.Some?;
    var cwd, title := StringField(p, "cwd"), StringField(p, "title");
    var s3 := if cwd.Some? && (!locked || s2.cwd.None?) then s2.(cwd := cwd) else s2;
    var s4 := if title.Some? && (!locked || s3.title.None?) then s3.(title := title) else s3;
    TouchIf(s4, TimeOf(c, p))
  }

  /** applyItemSessionFields: first-wins, and the identity of a subagent's own file. */
  function ApplyItem(s: Session, p: Payload, env: Env): Session {
    var id := FirstString(p, ["session_id", "sessionId", "conversation_id", "chat_id"]);
    var sidechain := "isSidechain" in p && p["isSidechain"] == Bool(true);
    var s1 :=
      if id.Some? && env.basename != "" && (env.byPath || sidechain) then
        if s.parent.None? then s.(parent := id, id := id.value + ":" + env.basename) else s
      else TakeId(s, id, env.fallback);
    var s2 := if s1.cwd.None? then s1.(cwd := StringField(p, "cwd")) else s1;
    if s2.title.None? then s2.(title := StringField(p, "title")) else s2
  }

  /** What one decoded line does to the session. */
  function ApplyRow(c: Codec, s: Session, row: Row, env: Env): Session {
    if row.item.None? || !HasItem(row.item.value) then
      if row.meta.Some? then ApplySession(c, s, row.meta.value, env.fallback) else s
    else
      if row.meta.Some? then ApplyItem(s, row.meta.value, env) else s
  }

  function RowItem(row: Row): Option<Payload> {
    if row.item.Some? && HasItem(row.item.value) then row.item else None
  }

  // ----- lines

  /** A blank line is skipped (Some(None)); a line that is not an object ends the parse (None). */
  function ReadLine(c: Codec, line: string): Option<Option<Payload>> {
    if Trim(line) == "" then Some(None)
    else if c.decode(Trim(line)).None? then None
    else Some(c.decode(Trim(line)))
  }

  datatype Parsed = Parsed(session: Session, items: seq<Item>)

  /** One unwrapped line: the session takes its metadata and the item, if any, the next ordinal. */
  function AddRow(c: Codec, env: Env, p: Parsed, start: nat, row: Row): Parsed {
    Parsed(ApplyRow(c, p.session, row, env),
           if RowItem(row).Some? then p.items + [Item(start + |p.items|, RowItem(row).value)] else p.items)
  }

  function ParseLine(c: Codec, env: Env, p: Parsed, start: nat, line: string): Option<Parsed> {
    match ReadLine(c, line)
    case None => None
    case Some(None) => Some(p)
    case Some(Some(payload)) => Some(AddRow(c, env, p, start, Unwrap(env.source, payload)))
  }

  function ParseLines(c: Codec, env: Env, p: Parsed, start: nat, lines: seq<string>): Option<Parsed>
    decreases |lines|
  {
    if lines == [] then Some(p)
    else
      var next := ParseLine(c, env, p, start, lines[0]);
      if next.None? then None else ParseLines(c, env, next.value, start, lines[1..])
  }

  /** What a line contributes: an error (None), nothing (Some(None)), or the payload of an item. */
  type Reader = string -> Option<Option<Payload>>

  /** Numbers the items of the lines one after the other. */
  function NumberItems(read: Reader, lines: seq<string>, start: nat): Option<seq<Item>>
    decreases |lines|
  {
    if lines == [] then Some([])
    else match read(lines[0])
      case None => None
      case Some(None) => NumberItems(read, lines[1..], start)
      case Some(Some(payload)) =>
        var rest := NumberItems(read, lines[1..], start + 1);
        if rest.None? then None else Some([Item(start, payload)] + rest.value)
  }

  function LineItem(c: Codec, source: Source, line: string): Option<Option<Payload>> {
    match ReadLine(c, line)
    case None => None
    case Some(None) => Some(None)
    case Some(Some(payload)) => Some(RowItem(Unwrap(source, payload)))
  }

  function ReaderOf(c: Codec, source: Source): Reader { line => LineItem(c, source, line) }

  /** The items alone: they do not depend on the session. */
  function ItemsOf(c: Codec, source: Source, lines: seq<string>, start: nat): Option<seq<Item>> {
    NumberItems(ReaderOf(c, source), lines, start)
  }

  /** The items of a whole file. */
  function FileItems(c: Codec, source: Source, bytes: string): Option<seq<Item>> {
    ItemsOf(c, source, Lines(bytes), 0)
  }

  function TouchAll(c: Codec, s: Session, items: seq<Item>): Session
    decreases |items|
  {
    if items == [] then s else TouchAll(c, TouchIf(s, TimeOf(c, items[0].payload)), items[1..])
  }

  /** finalizeSessionTimes, apart from the title; `now` stands in for a transcript without times. */
  function FinalizeTimes(c: Codec, s: Session, items: seq<Item>, now: int): Session {
    var s1 := TouchAll(c, s, items);
    var s2 := if s1.started.None? then s1.(started := Some(now)) else s1;
    if s2.last.None? || s2.last.value < s2.started.value then s2.(last := s2.started) else s2
  }

  /** The body of the reader's loop once the line is unwrapped. */
  method TakeRow(c: Codec, env: Env, session: Session, items: seq<Item>, ordinal: nat, row: Row)
    returns (session': Session, items': seq<Item>, ordinal': nat)
    requires ordinal >= |items|
    ensures Parsed(session', items') == AddRow(c, env, Parsed(session, items), ordinal - |items|, row)
    ensures ordinal' - |items'| == ordinal - |items|
  {
    session', items', ordinal' := ApplyRow(c, session, row, env), items, ordinal;
    if row.item.Some? && HasItem(row.item.value) {
      items' := items + [Item(ordinal, row.item.value)];
      ordinal' := ordinal + 1;
    }
  }

  /** The body of the reader's loop: a blank line is skipped, a bad one ends the parse. */
  method TakeLine(c: Codec, env: Env, session: Session, items: seq<Item>, ordinal: nat, line: string)
    returns (ok: bool, session': Session, items': seq<Item>, ordinal': nat)
    requires ordinal >= |items|
    ensures ParseLine(c, env, Parsed(session, items), ordinal - |items|, line) ==
        if ok then Some(Parsed(session', items')) else None
    ensures ordinal' - |items'| == ordinal - |items|
  {
    ok, session', items', ordinal' := true, session, items, ordinal;
    var trimmed := Trim(line);
    if trimmed != "" {
      var payload := c.decode(trimmed);
      if payload.None? {
        ok := false;
      } else {
        session', items', ordinal' := TakeRow(c, env, session, items, ordinal, Unwrap(env.source, payload.value));
      }
    }
  }

  /** parseJSONLTranscriptReader: one pass over the lines. A full import starts at ordinal 0 with the
      session of the file name, an append continues from the stored session and ordinal. */
  method ParseReader(c: Codec, env: Env, session: Session, start: nat, lines: seq<string>, now: int)
    returns (r: Option<Parsed>)
    ensures match ParseLines(c, env, Parsed(session, []), start, lines)
            case None => r.None?
            case Some(p) => r == Some(p.(session := FinalizeTimes(c, p.session, p.items, now)))
  {
    ghost var whole := ParseLines(c, env, Parsed(session, []), start, lines);
    var ok, s: Session, items: seq<Item>, ordinal := true, session, [], start;
    for i := 0 to |lines|
      invariant ordinal == start + |items|
      invariant ParseLines(c, env, Parsed(s, items), start, lines[i..]) == whole
    {
      ok, s, items, ordinal := TakeLine(c, env, s, items, ordinal, lines[i]);
      if !ok {
        return None;
      }
    }
    r := Some(Parsed(FinalizeTimes(c, s, items, now), items));
  }

  /** What one line adds to the items, whatever the session is. */
  ghost predicate LineAdds(item: Option<Option<Payload>>, was: seq<Item>, start: nat, next: Option<Parsed>) {
    match item
    case None => next.None?
    case Some(None) => next.Some? && next.value.items == was
    case Some(Some(payload)) => next.Some? && next.value.items == was + [Item(start + |was|, payload)]
  }

  lemma {:induction false} LineIgnoresSession(c: Codec, env: Env, p: Parsed, start: nat, line: string)
    ensures LineAdds(LineItem(c, env.source, line), p.items, start, ParseLine(c, env, p, start, line))
  {}

  lemma {:induction false} LinesAdd(
    read: Reader, lines: seq<string>, start: nat, was: seq<Item>, next: Option<Parsed>, full: Option<Parsed>)
    requires lines != [] && LineAdds(read(lines[0]), was, start, next)
    requires if next.None? then full.None?
             else
               var items := NumberItems(read, lines[1..], start + |next.value.items|);
               && (full.None? <==> items.None?)
               && (full.Some? ==> full.value.items == next.value.items + items.value)
    ensures var items := NumberItems(read, lines, start + |was|);
      && (full.None? <==> items.None?)
      && (full.Some? ==> full.value.items == was + items.value)
  {}

  lemma {:induction false} ItemsIgnoreSession(c: Codec, env: Env, p: Parsed, start: nat, lines: seq<string>)
    ensures var full, items := ParseLines(c, env, p, start, lines), ItemsOf(c, env.source, lines, start + |p.items|);
      && (full.None? <==> items.None?)
      && (full.Some? ==> full.value.items == p.items + items.value)
    decreases |lines|
  {
    if lines != [] {
      var next := ParseLine(c, env, p, start, lines[0]);
      LineIgnoresSession(c, env, p, start, lines[0]);
      if next.Some? {
        ItemsIgnoreSession(c, env, next.value, start, lines[1..]);
      }
      LinesAdd(ReaderOf(c, env.source), lines, start, p.items, next, ParseLines(c, env, p, start, lines));
    }
  }
}
