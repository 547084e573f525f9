/**
 The import of one growing transcript into two stores: the item rows of the database and the
 managed copy of the raw file. The file is parsed, then copied, and may have grown in between. A
 database transaction comes first, the promotion of the raw copy second, and an import may fail or
 die before, between and after them.
 */
module ChatImport {
  import opened Common
  import opened Text
  import opened Json
  import opened ChatTranscript
  import opened ChatRefinement

  /** rows are the stored items in ordinal order; raw is the managed copy, absent before the first
      import and when an import died between the two renames of a promotion. */
  datatype Chat = Chat(rows: seq<Item>, raw: Option<string>, source: string)

  /** How transcripts are parsed: a whole file, and what was appended, from an ordinal on. */
  datatype Parser = Parser(file: string -> Option<seq<Item>>, tail: (string, nat) -> Option<seq<Item>>)

  /** What a file holds after a line boundary comes after what it holds before. */
  ghost predicate PrefixLaw(p: Parser, a: string, b: string) {
    AtBoundary(a) && a <= b ==>
      && (p.file(b).Some? ==> p.file(a).Some?)
      && (p.file(a).Some? ==> p.file(b) == Then(p.file(a), p.tail(b[|a|..], |p.file(a).value|)))
  }

  ghost predicate OrdinalLaw(p: Parser, bytes: string) {
    p.file(bytes).Some? ==>
      forall i :: 0 <= i < |p.file(bytes).value| ==> p.file(bytes).value[i].ordinal == i
  }

  /** The same items from another ordinal on. */
  ghost predicate TailLaw(p: Parser, bytes: string, i: nat, j: nat) {
    p.tail(bytes, i).Some? ==>
      && p.tail(bytes, j).Some? && |p.tail(bytes, j).value| == |p.tail(bytes, i).value|
      && forall k :: 0 <= k < |p.tail(bytes, j).value| ==> p.tail(bytes, j).value[k].ordinal == j + k
  }

  /** All that the import needs of the parser. */
  ghost predicate Lawful(p: Parser) {
    && p.file("") == Some([])
    && (forall a, b :: PrefixLaw(p, a, b))
    && (forall bytes :: OrdinalLaw(p, bytes))
    && (forall bytes, i, j :: TailLaw(p, bytes, i, j))
  }

  function LineParser(c: Codec, kind: Source): Parser {
    Parser(bytes => FileItems(c, kind, bytes), (bytes: string, start: nat) => ItemsOf(c, kind, Lines(bytes), start))
  }

  /** The parser of lines has it. */
  lemma {:induction false} LineParserIsLawful(c: Codec, kind: Source)
    ensures Lawful(LineParser(c, kind))
  {
    var p := LineParser(c, kind);
    assert Lines("") == [""] && [""][1..] == [];
    assert Trim("") == "";
    assert ItemsOf(c, kind, [""], 0) == Some([]);
    forall a, b ensures PrefixLaw(p, a, b) {
      if AtBoundary(a) && a <= b {
        assert b == a + b[|a|..];
        AppendRefinesFull(c, kind, a, b[|a|..]);
      }
    }
    forall bytes ensures OrdinalLaw(p, bytes) {
      OrdinalsCount(ReaderOf(c, kind), Lines(bytes), 0);
    }
    forall bytes, i: nat, j: nat ensures TailLaw(p, bytes, i, j) {
      ShiftedItems(ReaderOf(c, kind), Lines(bytes), i, j);
      OrdinalsCount(ReaderOf(c, kind), Lines(bytes), j);
    }
  }

  lemma {:induction false} ShiftedItems(read: Reader, lines: seq<string>, i: nat, j: nat)
    ensures var a, b := NumberItems(read, lines, i), NumberItems(read, lines, j);
      a.Some? ==> b.Some? && |a.value| == |b.value|
    decreases |lines|
  {
    if lines != [] {
      match read(lines[0]) {
        case None =>
        case Some(None) => ShiftedItems(read, lines[1..], i, j);
        case Some(Some(payload)) => ShiftedItems(read, lines[1..], i + 1, j + 1);
      }
    }
  }

  /** Where an import goes wrong: the transaction, or after its commit the promotion, which leaves
      the old copy, none, or the new one. */
  datatype Copy = Old | Lost | New
  datatype Mishap = Smooth | BeforeCommit | AfterCommit(copy: Copy)

  datatype Outcome = Imported | Skipped | NoTranscript | Refused | Failed

  datatype Step = Step(chat: Chat, outcome: Outcome)

  // ----- the rows of a session

  function MaxOrdinal(rows: seq<Item>): int { if rows == [] then -1 else rows[|rows| - 1].ordinal }

  /** An insert that keeps ordinal order; a taken ordinal violates the UNIQUE constraint. */
  function InsertRow(rows: seq<Item>, item: Item): Option<seq<Item>> {
    if rows == [] then Some([item])
    else
      var n := |rows| - 1;
      if rows[n].ordinal < item.ordinal then Some(rows + [item])
      else if rows[n].ordinal == item.ordinal then None
      else
        var rest := InsertRow(rows[..n], item);
        if rest.None? then None else Some(rest.value + [rows[n]])
  }

  function InsertRows(rows: seq<Item>, items: seq<Item>): Option<seq<Item>>
    decreases |items|
  {
    if items == [] then Some(rows)
    else
      var next := InsertRow(rows, items[0]);
      if next.None? then None else InsertRows(next.value, items[1..])
  }

  predicate AlreadyStored(rows: seq<Item>, items: seq<Item>) { forall item :: item in items ==> item in rows }

  ghost predicate UniqueOrdinals(rows: seq<Item>) {
    forall i, j :: 0 <= i < j < |rows| ==> rows[i].ordinal != rows[j].ordinal
  }

  /** chatImportItemsAlreadyStored: every appended item has a row with its ordinal that matches it. */
  method ItemsAlreadyStored(rows: seq<Item>, items: seq<Item>) returns (stored: bool)
    requires UniqueOrdinals(rows)
    ensures stored == AlreadyStored(rows, items)
  {
    var byOrdinal: map<nat, Item> := map[];
    for i := 0 to |rows|
      invariant forall k :: k in byOrdinal ==> byOrdinal[k].ordinal == k && byOrdinal[k] in rows
      invariant forall j :: 0 <= j < i ==> rows[j].ordinal in byOrdinal && byOrdinal[rows[j].ordinal] == rows[j]
    {
      byOrdinal := byOrdinal[rows[i].ordinal := rows[i]];
    }
    for i := 0 to |items|
      invariant forall j :: 0 <= j < i ==> items[j] in rows
    {
      if items[i].ordinal !in byOrdinal || byOrdinal[items[i].ordinal] != items[i] {
        assert forall j :: 0 <= j < |rows| ==> rows[j] != items[i];
        assert items[i] in items && items[i] !in rows;
        return false;
      }
    }
    return true;
  }

  /** filePrefixMatches compares chunk by chunk and stops at the first difference. */
  method FilePrefixMatches(prefix: string, full: string, chunk: nat) returns (matches: bool)
    requires |prefix| <= |full| && chunk > 0
    ensures matches <==> prefix <= full
  {
    var done := 0;
    while done < |prefix|
      invariant done <= |prefix| && prefix[..done] == full[..done]
    {
      var size := if |prefix| - done < chunk then |prefix| - done else chunk;
      if prefix[done..done + size] != full[done..done + size] {
        assert full[..|prefix|][done..done + size] == full[done..done + size];
        return false;
      }
      assert prefix[..done + size] == prefix[..done] + prefix[done..done + size];
      assert full[..done + size] == full[..done] + full[done..done + size];
      done := done + size;
    }
    return true;
  }

  // ----- one import

  /** One transaction with these rows, then one promotion of the copy. The file has grown by `late`
      since it was parsed, and the copy is of all of it. */
  function Write(chat: Chat, rows: seq<Item>, late: string, mishap: Mishap): Step {
    var grown := chat.(source := chat.source + late);
    match mishap
    case Smooth => Step(grown.(rows := rows, raw := Some(grown.source)), Imported)
    case BeforeCommit => Step(grown, Failed)
    case AfterCommit(copy) =>
      Step(grown.(rows := rows, raw := match copy
                                       case Old => chat.raw
                                       case Lost => None
                                       case New => Some(grown.source)), Failed)
  }

  /** The import of the whole file, which replaces all rows. */
  function ImportWhole(p: Parser, chat: Chat, late: string, mishap: Mishap): Step {
    var items := p.file(chat.source);
    if items.None? || items.value == [] then Step(chat, NoTranscript) else Write(chat, items.value, late, mishap)
  }

  /** handleExactMatchChatImport: skipped unless the rows need repair. */
  function ImportUnchanged(p: Parser, chat: Chat, raw: string, late: string, mishap: Mishap): Step {
    var items := p.file(raw);
    if items.None? then Step(chat, Failed)
    else if items.value == [] || (|chat.rows| == |items.value| && AlreadyStored(chat.rows, items.value)) then
      Step(chat, Skipped)
    else Write(chat, items.value, late, mishap)
  }

  /** queueAppendJSONLChatImport: what lies behind the offset is new. The ordinals continue from the
      managed copy, not from the rows. */
  function AppendFrom(
    p: Parser, chat: Chat, raw: string, offset: nat, late: string, mishap: Mishap): Step
    requires offset <= |chat.source|
  {
    var managed := p.file(raw);
    if managed.None? || managed.value == [] then Step(chat, Failed)
    else
      var more := p.tail(chat.source[offset..], |managed.value|);
      if more.None? then Step(chat, Failed)
      else if AlreadyStored(chat.rows, more.value) then Write(chat, chat.rows, late, mishap)
      else if MaxOrdinal(chat.rows) + 1 != |managed.value| then Step(chat, Refused)
      else
        var rows := InsertRows(chat.rows, more.value);
        if rows.None? then Step(chat, Failed) else Write(chat, rows.value, late, mishap)
  }

  /** A file whose managed copy is missing, has shrunk or differs is imported as a whole. */
  function Import(p: Parser, chat: Chat, late: string, mishap: Mishap): Step {
    if chat.raw.None? then ImportWhole(p, chat, late, mishap)
    else
      var raw := chat.raw.value;
      if raw == chat.source then ImportUnchanged(p, chat, raw, late, mishap)
      else if raw <= chat.source then AppendFrom(p, chat, raw, |raw|, late, mishap)
      else ImportWhole(p, chat, late, mishap)
  }

  // ----- runs

  /** The file grows between imports, and by `late` during one. */
  datatype Event = Grow(bytes: string) | TryImport(late: string, mishap: Mishap)

  function Next(p: Parser, chat: Chat, event: Event): Chat {
    match event
    case Grow(bytes) => chat.(source := chat.source + bytes)
    case TryImport(late, mishap) => Import(p, chat, late, mishap).chat
  }

  function Run(p: Parser, chat: Chat, events: seq<Event>): Chat
    decreases |events|
  {
    if events == [] then chat
    else
      var n := |events| - 1;
      Next(p, Run(p, chat, events[..n]), events[n])
  }

  /** The file only ever grows by whole lines. */
  ghost predicate GrowsByLines(events: seq<Event>) {
    forall i :: 0 <= i < |events| ==>
      match events[i]
      case Grow(bytes) => AtBoundary(bytes)
      case TryImport(late, _) => AtBoundary(late)
  }

  const START := Chat([], None, "")

  // ----- what every event keeps

  /** The rows are those of one beginning of the file, the managed copy is another: either may be
      ahead of the other. */
  ghost predicate Behind(p: Parser, chat: Chat, done: string) {
    && AtBoundary(done) && AtBoundary(chat.source) && done <= chat.source
    && p.file(done) == Some(chat.rows)
    && (chat.raw.Some? ==>
          && AtBoundary(chat.raw.value) && chat.raw.value <= chat.source
          && p.file(chat.raw.value) != Some([]))
  }

  ghost predicate Consistent(p: Parser, chat: Chat) {
    exists done :: Behind(p, chat, done)
  }

  /** The items of a beginning are the first items. */
  lemma {:induction false} PrefixItems(p: Parser, a: string, b: string)
    requires Lawful(p) && AtBoundary(a) && a <= b
    ensures p.file(b).Some? ==> p.file(a).Some? && p.file(a).value <= p.file(b).value
    ensures p.file(a).Some? ==> p.file(b) == Then(p.file(a), p.tail(b[|a|..], |p.file(a).value|))
  {
    assert PrefixLaw(p, a, b);
  }

  lemma {:induction false} InsertAtEnd(rows: seq<Item>, items: seq<Item>)
    requires forall i :: 0 <= i < |items| ==> items[i].ordinal == MaxOrdinal(rows) + 1 + i
    ensures InsertRows(rows, items) == Some(rows + items)
    decreases |items|
  {
    if items == [] {
      assert rows + [] == rows;
    } else {
      assert rows == [] ==> rows + [items[0]] == [items[0]];
      assert InsertRow(rows, items[0]) == Some(rows + [items[0]]);
      InsertAtEnd(rows + [items[0]], items[1..]);
      assert (rows + [items[0]]) + items[1..] == rows + items;
    }
  }

  lemma {:induction false} FileOrdinals(p: Parser, bytes: string)
    requires Lawful(p)
    ensures var items := p.file(bytes);
      items.Some? ==>
        && (forall i :: 0 <= i < |items.value| ==> items.value[i].ordinal == i)
        && MaxOrdinal(items.value) == |items.value| - 1
  {
    assert OrdinalLaw(p, bytes);
  }

  /** The copy and the rows stop at different places, and the file goes beyond both. */
  predicate Apart(managed: nat, rows: nat, all: nat) { managed != rows && managed < all && rows < all }

  /** An append compares three lengths: what is managed, what is stored, all of the file. */
  lemma {:induction false} AppendedExactly(
    p: Parser, chat: Chat, raw: string, late: string, mishap: Mishap, done: string)
    requires Lawful(p) && Behind(p, chat, done) && chat.raw == Some(raw) && raw != chat.source
    requires p.file(chat.source).Some?
    ensures p.file(raw).Some?
    ensures var managed, all := p.file(raw).value, p.file(chat.source).value;
      && managed <= all && chat.rows <= all
      && Import(p, chat, late, mishap) ==
           if Apart(|managed|, |chat.rows|, |all|) then Step(chat, Refused)
           else Write(chat, if managed == all then chat.rows else all, late, mishap)
  {
    PrefixItems(p, raw, chat.source);
    PrefixItems(p, done, chat.source);
    FileOrdinals(p, done);
    FileOrdinals(p, chat.source);
    var managed, all := p.file(raw).value, p.file(chat.source).value;
    var more := p.tail(chat.source[|raw|..], |managed|).value;
    assert all == managed + more;
    assert Import(p, chat, late, mishap) == AppendFrom(p, chat, raw, |raw|, late, mishap);
    StoredExactly(chat.rows, managed, more);
    if |chat.rows| == |managed| {
      assert chat.rows == managed;
      assert forall i :: 0 <= i < |more| ==> more[i] == all[|managed| + i];
      InsertAtEnd(managed, more);
      assert managed + [] == managed;
    }
  }

  /** The appended items are all stored exactly when there are none or the rows are complete. */
  lemma {:induction false} StoredExactly(rows: seq<Item>, managed: seq<Item>, more: seq<Item>)
    requires rows <= managed + more
    requires forall i :: 0 <= i < |managed + more| ==> (managed + more)[i].ordinal == i
    ensures AlreadyStored(rows, more) <==> more == [] || rows == managed + more
  {
    var all := managed + more;
    if AlreadyStored(rows, more) && more != [] {
      var last := more[|more| - 1];
      assert last == all[|all| - 1];
      assert last in more && last in rows;
      var i :| 0 <= i < |rows| && rows[i] == last;
      assert rows[i] == all[i];
    }
    if rows == all {
      assert forall i :: 0 <= i < |more| ==> more[i] == rows[|managed| + i];
    }
  }

  /** A write of the rows of some beginning of the file. */
  lemma {:induction false} WriteKeeps(
    p: Parser, chat: Chat, rows: seq<Item>, late: string, mishap: Mishap, done: string, next: string)
    requires Lawful(p) && Behind(p, chat, done) && AtBoundary(late)
    requires AtBoundary(next) && next <= chat.source && p.file(next) == Some(rows)
    requires p.file(chat.source).Some? && p.file(chat.source).value != []
    ensures Consistent(p, Write(chat, rows, late, mishap).chat)
  {
    var s := Write(chat, rows, late, mishap).chat;
    PrefixItems(p, chat.source, chat.source + late);
    if mishap == BeforeCommit {
      assert Behind(p, s, done);
    } else {
      assert Behind(p, s, next);
    }
  }

  lemma {:induction false} ImportKeeps(p: Parser, chat: Chat, late: string, mishap: Mishap)
    requires Lawful(p) && Consistent(p, chat) && AtBoundary(late)
    ensures var s := Import(p, chat, late, mishap);
      && Consistent(p, s.chat)
      && s.chat.source in {chat.source, chat.source + late}
      && (s.outcome in {Refused, Skipped, NoTranscript} ==> s.chat == chat)
  {
    var done :| Behind(p, chat, done);
    var all := p.file(chat.source);
    PrefixItems(p, done, chat.source);
    if all.Some? {
      if all.value != [] {
        WriteKeeps(p, chat, all.value, late, mishap, done, chat.source);
        WriteKeeps(p, chat, chat.rows, late, mishap, done, done);
      }
      if chat.raw.Some? && chat.raw.value != chat.source {
        AppendedKeeps(p, chat, late, mishap, done);
      }
    } else if chat.raw.Some? && chat.raw.value != chat.source {
      UnparsedFails(p, chat, chat.raw.value, late, mishap);
    }
  }

  /** A file that does not parse is not appended from. */
  lemma {:induction false} UnparsedFails(
    p: Parser, chat: Chat, raw: string, late: string, mishap: Mishap)
    requires Lawful(p) && p.file(chat.source).None? && AtBoundary(raw) && raw <= chat.source
    ensures AppendFrom(p, chat, raw, |raw|, late, mishap) == Step(chat, Failed)
  {
    PrefixItems(p, raw, chat.source);
  }

  lemma {:induction false} AppendedKeeps(
    p: Parser, chat: Chat, late: string, mishap: Mishap, done: string)
    requires Lawful(p) && Behind(p, chat, done) && chat.raw.Some? && chat.raw.value != chat.source
    requires p.file(chat.source).Some?
    ensures var all := p.file(chat.source).value;
      && all != []
      && Import(p, chat, late, mishap)
           in {Step(chat, Refused), Write(chat, chat.rows, late, mishap), Write(chat, all, late, mishap)}
  {
    AppendedExactly(p, chat, chat.raw.value, late, mishap, done);
    PrefixItems(p, chat.raw.value, chat.source);
  }

  lemma {:induction false} GrowKeeps(p: Parser, chat: Chat, bytes: string)
    requires Consistent(p, chat) && AtBoundary(bytes)
    ensures Consistent(p, chat.(source := chat.source + bytes))
  {
    var done :| Behind(p, chat, done);
    assert Behind(p, chat.(source := chat.source + bytes), done);
  }

  lemma {:induction false} RunKeeps(p: Parser, events: seq<Event>)
    requires Lawful(p) && GrowsByLines(events)
    ensures Consistent(p, Run(p, START, events))
    decreases |events|
  {
    if events == [] {
      assert Behind(p, START, "");
    } else {
      var n := |events| - 1;
      RunKeeps(p, events[..n]);
      var chat := Run(p, START, events[..n]);
      match events[n] {
        case Grow(bytes) => GrowKeeps(p, chat, bytes);
        case TryImport(late, mishap) => ImportKeeps(p, chat, late, mishap);
      }
    }
  }

  // ----- exactly once

  /** Rows and managed copy are those of the file as it now is. */
  ghost predicate Complete(p: Parser, chat: Chat) {
    chat.raw == Some(chat.source) && Some(chat.rows) == p.file(chat.source)
  }

  /** The managed copy is of a file that has gained lines without items since, and items of it were
      never stored. */
  ghost predicate Stale(p: Parser, chat: Chat) {
    && chat.raw.Some? && chat.raw.value != chat.source && chat.raw.value <= chat.source
    && p.file(chat.raw.value) == p.file(chat.source)
    && p.file(chat.source) != Some(chat.rows)
  }

  /** The lines that come while the import runs say nothing. */
  ghost predicate Timely(p: Parser, chat: Chat, late: string) {
    p.file(chat.source + late) == p.file(chat.source)
  }

  /** Exactly when an import that succeeds is exactly once: the file has gained no items between its
      parse and its copy, and did not in an earlier import either, but for what has been made up. */
  lemma {:induction false} CompleteExactly(p: Parser, chat: Chat, late: string, mishap: Mishap)
    requires Lawful(p) && Consistent(p, chat) && AtBoundary(late)
    ensures var s := Import(p, chat, late, mishap);
      && (s.outcome == Skipped ==> Complete(p, s.chat))
      && (s.outcome == Imported ==>
            (Complete(p, s.chat) <==> Timely(p, chat, late) && !Stale(p, chat)))
  {
    var done :| Behind(p, chat, done);
    PrefixItems(p, done, chat.source);
    var all := p.file(chat.source);
    if all.None? {
      if chat.raw.Some? && chat.raw.value != chat.source {
        UnparsedFails(p, chat, chat.raw.value, late, mishap);
      }
    } else if chat.raw.Some? && chat.raw.value != chat.source {
      AppendedExactly(p, chat, chat.raw.value, late, mishap, done);
      LateItems(p, chat.source, late, chat.rows);
    } else if chat.raw.Some? {
      UnchangedExactly(p, chat, late, mishap);
    }
  }

  /** Rows that are not all of the file are not all of it when it has grown. */
  lemma {:induction false} LateItems(p: Parser, a: string, late: string, rows: seq<Item>)
    requires Lawful(p) && AtBoundary(a) && p.file(a).Some? && rows <= p.file(a).value
    ensures p.file(a + late) == Some(rows) ==>
      p.file(a) == Some(rows) && p.file(a + late) == p.file(a)
  {
    PrefixItems(p, a, a + late);
    if p.file(a + late) == Some(rows) {
      Between(p.file(a).value, rows);
    }
  }

  lemma {:induction false} Between(xs: seq<Item>, ys: seq<Item>)
    requires ys <= xs && |xs| <= |ys|
    ensures xs == ys
  {}

  /** When the copy is all of the file the rows are repaired unless they are complete. */
  lemma {:induction false} UnchangedExactly(p: Parser, chat: Chat, late: string, mishap: Mishap)
    requires Lawful(p) && Consistent(p, chat) && chat.raw == Some(chat.source) && p.file(chat.source).Some?
    ensures var all := p.file(chat.source).value;
      Import(p, chat, late, mishap) ==
        if chat.rows == all then Step(chat, Skipped) else Write(chat, all, late, mishap)
  {
    var done :| Behind(p, chat, done);
    PrefixItems(p, done, chat.source);
  }

  /** Exactly once. After any growth by lines, between imports and during them, and any number of
      imports that fail or die anywhere, an import that succeeds leaves the rows of a full parse, with
      ordinals 0, 1, 2, ..., and the managed copy equal to the file, exactly when no items have come
      late; whatever it leaves has such ordinals, and one that refuses has changed neither store. */
  lemma {:induction false} ExactlyOnce(p: Parser, events: seq<Event>, late: string, mishap: Mishap)
    requires Lawful(p) && GrowsByLines(events) && AtBoundary(late)
    ensures var chat := Run(p, START, events);
      var s := Import(p, chat, late, mishap);
      && (s.outcome == Skipped ==> Complete(p, s.chat))
      && (s.outcome == Imported ==>
            (Complete(p, s.chat) <==> Timely(p, chat, late) && !Stale(p, chat)))
      && (forall i :: 0 <= i < |s.chat.rows| ==> s.chat.rows[i].ordinal == i)
      && (s.outcome == Refused ==> s.chat == chat)
  {
    RunKeeps(p, events);
    var chat := Run(p, START, events);
    ImportKeeps(p, chat, late, mishap);
    CompleteExactly(p, chat, late, mishap);
    var s := Import(p, chat, late, mishap).chat;
    var done :| Behind(p, s, done);
    FileOrdinals(p, done);
  }

  /** No import of the run has met late items. */
  ghost predicate AlwaysTimely(p: Parser, events: seq<Event>)
    decreases |events|
  {
    events == [] ||
    var n := |events| - 1;
      && AlwaysTimely(p, events[..n])
      && (events[n].TryImport? ==> Timely(p, Run(p, START, events[..n]), events[n].late))
  }

  /** The copy is not ahead of the rows. */
  ghost predicate CopyBehind(p: Parser, chat: Chat) {
    chat.raw.Some? && p.file(chat.raw.value).Some? ==>
      |p.file(chat.raw.value).value| <= |chat.rows|
  }

  lemma {:induction false} TimelyImportKeeps(p: Parser, chat: Chat, late: string, mishap: Mishap)
    requires Lawful(p) && Consistent(p, chat) && AtBoundary(late)
    requires CopyBehind(p, chat) && Timely(p, chat, late)
    ensures CopyBehind(p, Import(p, chat, late, mishap).chat)
  {
    var done :| Behind(p, chat, done);
    PrefixItems(p, done, chat.source);
    var all := p.file(chat.source);
    if all.None? {
      if chat.raw.Some? && chat.raw.value != chat.source {
        UnparsedFails(p, chat, chat.raw.value, late, mishap);
      }
    } else if chat.raw.Some? && chat.raw.value != chat.source {
      AppendedExactly(p, chat, chat.raw.value, late, mishap, done);
    } else if chat.raw.Some? {
      UnchangedExactly(p, chat, late, mishap);
    }
  }

  lemma {:induction false} TimelyRunKeeps(p: Parser, events: seq<Event>)
    requires Lawful(p) && GrowsByLines(events) && AlwaysTimely(p, events)
    ensures CopyBehind(p, Run(p, START, events))
    decreases |events|
  {
    if events != [] {
      var n := |events| - 1;
      TimelyRunKeeps(p, events[..n]);
      RunKeeps(p, events[..n]);
      if events[n].TryImport? {
        TimelyImportKeeps(p, Run(p, START, events[..n]), events[n].late, events[n].mishap);
      }
    }
  }

  /** A run whose imports never meet late items: whatever fails or dies, every success is exactly once. */
  lemma {:induction false} TimelyIsExactlyOnce(
    p: Parser, events: seq<Event>, late: string, mishap: Mishap)
    requires Lawful(p) && GrowsByLines(events) && AtBoundary(late)
    requires AlwaysTimely(p, events + [TryImport(late, mishap)])
    ensures var s := Import(p, Run(p, START, events), late, mishap);
      s.outcome in {Imported, Skipped} ==> Complete(p, s.chat)
  {
    assert (events + [TryImport(late, mishap)])[..|events|] == events;
    var chat := Run(p, START, events);
    TimelyRunKeeps(p, events);
    RunKeeps(p, events);
    CompleteExactly(p, chat, late, mishap);
    if p.file(chat.source).Some? {
      NotStale(p, chat);
    }
  }

  lemma {:induction false} NotStale(p: Parser, chat: Chat)
    requires Lawful(p) && Consistent(p, chat) && CopyBehind(p, chat) && p.file(chat.source).Some?
    ensures !Stale(p, chat)
  {
    if Stale(p, chat) {
      var done :| Behind(p, chat, done);
      PrefixItems(p, done, chat.source);
      Between(p.file(chat.source).value, chat.rows);
    }
  }

  // ----- refusals

  /** Exactly when an import is refused although the file can be parsed: managed copy and rows stop at
      different places, either of them ahead, and the file has gained items beyond both. */
  lemma {:induction false} RefusedExactly(p: Parser, chat: Chat, late: string, mishap: Mishap)
    requires Lawful(p) && Consistent(p, chat) && chat.raw.Some? && p.file(chat.source).Some?
    ensures p.file(chat.raw.value).Some?
    ensures Import(p, chat, late, mishap).outcome == Refused <==>
      Apart(|p.file(chat.raw.value).value|, |chat.rows|, |p.file(chat.source).value|)
  {
    var done :| Behind(p, chat, done);
    if chat.raw.value == chat.source {
      UnchangedExactly(p, chat, late, mishap);
    } else {
      AppendedExactly(p, chat, chat.raw.value, late, mishap, done);
    }
  }

  /** Exactly when an undisturbed import succeeds: the file parses, has items, and is not refused. */
  lemma {:induction false} UndisturbedSucceedsExactly(p: Parser, chat: Chat, late: string)
    requires Lawful(p) && Consistent(p, chat)
    ensures var all := p.file(chat.source);
      Import(p, chat, late, Smooth).outcome in {Imported, Skipped} <==>
        && all.Some? && all.value != []
        && (chat.raw.Some? ==>
              p.file(chat.raw.value).Some? &&
              !Apart(|p.file(chat.raw.value).value|, |chat.rows|, |all.value|))
  {
    var done :| Behind(p, chat, done);
    if p.file(chat.source).None? {
      if chat.raw.Some? && chat.raw.value != chat.source {
        UnparsedFails(p, chat, chat.raw.value, late, Smooth);
      }
    } else if chat.raw.Some? {
      RefusedExactly(p, chat, late, Smooth);
      PrefixItems(p, chat.raw.value, chat.source);
      if chat.raw.value == chat.source {
        UnchangedExactly(p, chat, late, Smooth);
      } else {
        AppendedExactly(p, chat, chat.raw.value, late, Smooth, done);
      }
    }
  }

  /** A refusal is for good: however the file grows afterwards and however often the import is tried,
      it never succeeds again and neither store ever changes. */
  lemma {:induction false} RefusedForever(
    p: Parser, chat: Chat, first: string, mishap: Mishap, events: seq<Event>, late: string, last: Mishap)
    requires Lawful(p) && Consistent(p, chat) && GrowsByLines(events)
    requires chat.raw.Some? && p.file(chat.source).Some?
    requires Import(p, chat, first, mishap).outcome == Refused
    ensures var later := Run(p, chat, events);
      && later.rows == chat.rows && later.raw == chat.raw
      && Import(p, later, late, last).outcome in {Refused, Failed}
  {
    RefusedExactly(p, chat, first, mishap);
    assert StuckAt(p, chat, chat.source);
    StaysApart(p, chat, events);
    StuckStep(p, Run(p, chat, events), late, last);
  }

  /** The file has gone beyond rows and copy, which stop at different places, once it had these bytes. */
  ghost predicate StuckAt(p: Parser, chat: Chat, seen: string) {
    && AtBoundary(seen) && seen <= chat.source && p.file(seen).Some?
    && chat.raw.Some? && p.file(chat.raw.value).Some?
    && Apart(|p.file(chat.raw.value).value|, |chat.rows|, |p.file(seen).value|)
  }

  ghost predicate Stuck(p: Parser, chat: Chat) {
    Consistent(p, chat) && exists seen :: StuckAt(p, chat, seen)
  }

  lemma {:induction false} StuckStep(p: Parser, chat: Chat, late: string, mishap: Mishap)
    requires Lawful(p) && Stuck(p, chat)
    ensures var s := Import(p, chat, late, mishap); s.chat == chat && s.outcome in {Refused, Failed}
  {
    var done :| Behind(p, chat, done);
    var seen :| StuckAt(p, chat, seen);
    PrefixItems(p, seen, chat.source);
    PrefixItems(p, chat.raw.value, chat.source);
    if p.file(chat.source).None? {
      UnparsedFails(p, chat, chat.raw.value, late, mishap);
    } else if chat.raw.value != chat.source {
      AppendedExactly(p, chat, chat.raw.value, late, mishap, done);
    }
  }

  lemma {:induction false} StaysApart(p: Parser, chat: Chat, events: seq<Event>)
    requires Lawful(p) && Stuck(p, chat) && GrowsByLines(events)
    ensures var later := Run(p, chat, events);
      Stuck(p, later) && later.rows == chat.rows && later.raw == chat.raw
    decreases |events|
  {
    if events != [] {
      var n := |events| - 1;
      StaysApart(p, chat, events[..n]);
      var later := Run(p, chat, events[..n]);
      match events[n] {
        case Grow(bytes) =>
          GrowKeeps(p, later, bytes);
          var seen :| StuckAt(p, later, seen);
          assert StuckAt(p, later.(source := later.source + bytes), seen);
        case TryImport(late, mishap) => StuckStep(p, later, late, mishap);
      }
    }
  }

  /** The file appears and is imported; it grows and is imported again, but the process dies after
      the commit and before the promotion; and it grows once more. */
  function DiesBetween(a: string, b: string, d: string): seq<Event> {
    [Grow(a), TryImport("", Smooth), Grow(b), TryImport("", AfterCommit(Old)), Grow(d)]
  }

  lemma {:induction false} RunOneMore(p: Parser, chat: Chat, events: seq<Event>, last: Event)
    ensures Run(p, chat, events + [last]) == Next(p, Run(p, chat, events), last)
  {
    assert (events + [last])[..|events|] == events;
  }

  lemma {:induction false} RunFive(p: Parser, chat: Chat, events: seq<Event>)
    requires |events| == 5
    ensures var first := Next(p, Next(p, chat, events[0]), events[1]);
      Run(p, chat, events)
      == Next(p, Next(p, Next(p, first, events[2]), events[3]), events[4])
  {
    RunOneMore(p, chat, [], events[0]);
    RunOneMore(p, chat, events[..1], events[1]);
    RunOneMore(p, chat, events[..2], events[2]);
    RunOneMore(p, chat, events[..3], events[3]);
    RunOneMore(p, chat, events[..4], events[4]);
    assert [] + [events[0]] == events[..1] && events[..1] + [events[1]] == events[..2];
    assert events[..2] + [events[2]] == events[..3] && events[..3] + [events[3]] == events[..4];
    assert events[..4] + [events[4]] == events;
  }

  /** An import of an unchanged file or an append that dies before the promotion leaves the rows of
      all of the file and the managed copy as it was. */
  lemma {:induction false} DiesBeforePromotion(p: Parser, a: string, b: string)
    requires Lawful(p) && AtBoundary(a) && AtBoundary(b)
    requires p.file(a + b).Some? && p.file(a).Some? && p.file(a).value != []
    ensures Import(p, Chat(p.file(a).value, Some(a), a + b), "", AfterCommit(Old)).chat
         == Chat(p.file(a + b).value, Some(a), a + b)
  {
    var chat := Chat(p.file(a).value, Some(a), a + b);
    assert Behind(p, chat, a);
    PrefixItems(p, a, a + b);
    assert (a + b) + "" == a + b;
    if b == "" {
      assert a + b == a;
    } else {
      assert |a + b| != |a|;
      AppendedExactly(p, chat, a, "", AfterCommit(Old), a);
    }
  }

  lemma {:induction false} DiesBetweenLeaves(p: Parser, a: string, b: string, d: string)
    requires Lawful(p) && AtBoundary(a) && AtBoundary(b)
    requires p.file(a + b).Some? && p.file(a).Some? && p.file(a).value != []
    ensures Run(p, START, DiesBetween(a, b, d)) == Chat(p.file(a + b).value, Some(a), a + b + d)
  {
    RunFive(p, START, DiesBetween(a, b, d));
    assert "" + a == a && a + "" == a;
    assert Import(p, Chat([], None, a), "", Smooth).chat == Chat(p.file(a).value, Some(a), a);
    DiesBeforePromotion(p, a, b);
  }

  /** From the empty store: after such a run every later import is refused exactly when both growths
      brought items. */
  lemma {:induction false} RefusedAfterDeath(
    p: Parser, a: string, b: string, d: string, late: string, mishap: Mishap)
    requires Lawful(p) && AtBoundary(a) && AtBoundary(b) && AtBoundary(d) && p.file(a + b + d).Some?
    requires p.file(a).Some? && p.file(a).value != []
    ensures p.file(a + b).Some?
    ensures Import(p, Run(p, START, DiesBetween(a, b, d)), late, mishap).outcome == Refused <==>
      |p.file(a).value| < |p.file(a + b).value| < |p.file(a + b + d).value|
  {
    PrefixItems(p, a + b, a + b + d);
    PrefixItems(p, a, a + b);
    DiesBetweenLeaves(p, a, b, d);
    RunKeeps(p, DiesBetween(a, b, d));
    RefusedExactly(p, Run(p, START, DiesBetween(a, b, d)), late, mishap);
  }

  /** The file grows by b between its parse and its copy, in its first import, which succeeds. */
  function GrowsLate(a: string, b: string): seq<Event> { [Grow(a), TryImport(b, Smooth)] }

  lemma {:induction false} GrowsLateLeaves(p: Parser, a: string, b: string)
    requires p.file(a).Some? && p.file(a).value != []
    ensures Run(p, START, GrowsLate(a, b)) == Chat(p.file(a).value, Some(a + b), a + b)
    ensures Import(p, Run(p, START, [Grow(a)]), b, Smooth).outcome == Imported
  {
    RunOneMore(p, START, [], Grow(a));
    RunOneMore(p, START, [Grow(a)], TryImport(b, Smooth));
    assert [] + [Grow(a)] == [Grow(a)] && [Grow(a)] + [TryImport(b, Smooth)] == GrowsLate(a, b);
    assert "" + a == a;
  }

  /** From the empty store, without any failure: items of b come while the file is first imported, and
      then it grows by d. If d is nothing, the next import repairs the rows; if it brings no items, the
      next import succeeds and the items of b stay missing; otherwise every later one is refused. */
  lemma {:induction false} LateGrowth(
    p: Parser, a: string, b: string, d: string, late: string, mishap: Mishap)
    requires Lawful(p) && AtBoundary(a) && AtBoundary(b) && AtBoundary(d) && p.file(a + b + d).Some?
    requires p.file(a).Some? && p.file(a).value != []
    requires p.file(a + b) != p.file(a)
    ensures p.file(a + b).Some?
    ensures var first := Run(p, START, GrowsLate(a, b));
      var grown := Next(p, first, Grow(d));
      var s := Import(p, grown, late, mishap);
      && !Complete(p, first)
      && s == (if d == "" then Write(grown, p.file(a + b).value, late, mishap)
               else if p.file(a + b + d) == p.file(a + b) then
                 Write(grown, p.file(a).value, late, mishap)
               else Step(grown, Refused))
  {
    GrowsLateLeaves(p, a, b);
    var grown := Chat(p.file(a).value, Some(a + b), a + b + d);
    PrefixItems(p, a + b, a + b + d);
    PrefixItems(p, a, a + b);
    LateChat(p, a, b, d);
    if d == "" {
      assert a + b + d == a + b;
      UnchangedExactly(p, grown, late, mishap);
    } else {
      assert |a + b + d| != |a + b|;
      AppendedExactly(p, grown, a + b, late, mishap, a);
      Longer(p.file(a).value, p.file(a + b).value);
      if p.file(a + b + d) != p.file(a + b) {
        Longer(p.file(a + b).value, p.file(a + b + d).value);
      }
    }
  }

  lemma {:induction false} Longer(xs: seq<Item>, ys: seq<Item>)
    requires xs <= ys && xs != ys
    ensures |xs| < |ys|
  {}

  lemma {:induction false} LateChat(p: Parser, a: string, b: string, d: string)
    requires Lawful(p) && AtBoundary(a) && AtBoundary(b) && AtBoundary(d) && p.file(a + b).Some?
    requires p.file(a).Some? && p.file(a).value != []
    ensures Behind(p, Chat(p.file(a).value, Some(a + b), a + b + d), a)
  {
    PrefixItems(p, a, a + b);
  }

  // ----- a file that is scanned twice in one run

  /** The second scan compares the file with the managed copy before the write of the first is
      flushed, and appends what lies behind that copy after it has been: the appended items are stored
      a second time. Exactly when there are none is the chat complete. */
  lemma {:induction false} ScannedTwice(p: Parser, chat: Chat, done: string)
    requires Lawful(p) && Behind(p, chat, done) && chat.raw.Some? && chat.raw.value != chat.source
    requires p.file(chat.raw.value) == Some(chat.rows) && p.file(chat.source).Some?
    ensures var all, first := p.file(chat.source).value, Import(p, chat, "", Smooth).chat;
      var s := AppendFrom(p, first, first.source, |chat.raw.value|, "", Smooth);
      && Complete(p, first) && first.source == chat.source
      && s.outcome == Imported && s.chat.raw == Some(chat.source)
      && all <= s.chat.rows && |s.chat.rows| == |all| + (|all| - |chat.rows|)
      && (Complete(p, s.chat) <==> all == chat.rows)
  {
    var raw, all := chat.raw.value, p.file(chat.source).value;
    PrefixItems(p, raw, chat.source);
    AppendedExactly(p, chat, raw, "", Smooth, done);
    assert chat.source + "" == chat.source;
    var first := Chat(all, Some(chat.source), chat.source);
    assert Import(p, chat, "", Smooth).chat == first;
    AppendedAgain(p, chat.source, |raw|, chat.rows);
    if all != chat.rows {
      Longer(chat.rows, all);
    }
  }

  lemma {:induction false} AppendedAgain(p: Parser, source: string, offset: nat, rows: seq<Item>)
    requires Lawful(p) && offset <= |source| && p.file(source).Some? && p.file(source).value != []
    requires p.tail(source[offset..], |rows|).Some?
    requires p.file(source).value == rows + p.tail(source[offset..], |rows|).value
    ensures var all := p.file(source).value;
      var s := AppendFrom(p, Chat(all, Some(source), source), source, offset, "", Smooth);
      && s.outcome == Imported && s.chat.raw == Some(source) && s.chat.source == source
      && all <= s.chat.rows && |s.chat.rows| == |all| + (|all| - |rows|)
  {
    var all, tail := p.file(source).value, source[offset..];
    FileOrdinals(p, source);
    assert TailLaw(p, tail, |rows|, |all|);
    var again := p.tail(tail, |all|).value;
    InsertAtEnd(all, again);
    assert source + "" == source && all + [] == all;
    if again != [] {
      AfterAll(all, again);
    }
  }

  /** Ordinals that come after all those stored are not stored. */
  lemma {:induction false} AfterAll(all: seq<Item>, again: seq<Item>)
    requires again != [] && (forall i :: 0 <= i < |all| ==> all[i].ordinal == i)
    requires forall i :: 0 <= i < |again| ==> again[i].ordinal == |all| + i
    ensures !AlreadyStored(all, again)
  {
    assert again[0] in again;
  }
}
