/**
 The snapshot as a directory tree: writing it and reading it back. JSON files hold typed values and
 times are numbers, so the tree has their contents and not their text.
 */
module SnapshotTree {
  import opened Common
  import opened Text
  import opened Sorting
  import opened KeyedDirectory
  import RecordOrder

  const RECORD_VERSION := 1
  const CHAT_VERSION := 2

  /** The zero time, which a registry entry must not have. */
  const ZERO_TIME := 0

  datatype Template = Template(name: string, html: string)

  datatype Entry = Entry(id: string, createdAt: int, updatedAt: int, archivedAt: Option<int>)

  datatype Figure = Figure(filename: string, info: string, content: string)

  datatype DataFile = DataFile(filename: string, info: string)

  /** The body of a record stands for the fields copied as they are. */
  datatype Record = Record(
    id: string, date: string, dayOrder: string, projectId: string, deviceId: string, body: string,
    html: Option<string>, notes: Option<string>, figures: seq<Figure>, dataFiles: seq<DataFile>)

  datatype Item = Item(ordinal: int, body: string)

  datatype Chat = Chat(id: string, lastActivityAt: int, body: string, rawKey: Option<string>, raw: string,
      items: seq<Item>)

  datatype Snapshot = Snapshot(
    templates: seq<Template>, projects: seq<Entry>, devices: seq<Entry>, records: seq<Record>, chats: seq<Chat>)

  // ----- the tree

  datatype FigureMeta = FigureMeta(filename: string, info: string)

  datatype RecordMeta = RecordMeta(
    version: int, id: string, date: string, dayOrder: string, projectId: string, deviceId: string, body: string,
    hasNotes: bool, figures: seq<FigureMeta>, dataFiles: seq<DataFile>)

  datatype RecordDir = RecordDir(
    meta: Option<RecordMeta>, html: Option<string>, notes: Option<string>, figures: map<string, string>)

  datatype ChatMeta = ChatMeta(version: int, legacyPath: Option<string>, id: string, lastActivityAt: int,
      body: string, rawKey: Option<string>)

  datatype ChatDir = ChatDir(meta: Option<ChatMeta>, items: Option<seq<Item>>, raw: map<string, string>)

  datatype Tree = Tree(
    templates: Dir<string>, projects: seq<Entry>, devices: seq<Entry>, records: Dir<RecordDir>,
        chats: Option<Dir<ChatDir>>)

  // ----- orders

  predicate TemplateLess(a: Template, b: Template) { RecordOrder.Less(a.name, b.name) }

  predicate EntryLess(a: Entry, b: Entry) { RecordOrder.Less(a.id, b.id) }

  predicate FigureLess(a: Figure, b: Figure) { RecordOrder.Less(a.filename, b.filename) }

  predicate DataFileLess(a: DataFile, b: DataFile) { RecordOrder.Less(a.filename, b.filename) }

  predicate ItemLess(a: Item, b: Item) { a.ordinal < b.ordinal }

  /** The order of the chats: last activity, then id. */
  predicate ChatLess(a: Chat, b: Chat) {
    if a.lastActivityAt != b.lastActivityAt then a.lastActivityAt < b.lastActivityAt else RecordOrder.Less(a.id, b.id)
  }

  /** The order of the records: date, day order, id. */
  predicate RecordLess(a: Record, b: Record) {
    if a.date != b.date then RecordOrder.Less(a.date, b.date)
    else if a.dayOrder != b.dayOrder then RecordOrder.Less(a.dayOrder, b.dayOrder)
    else RecordOrder.Less(a.id, b.id)
  }

  lemma {:induction false} StringOrders()
    ensures Orders((a: string, b: string) => RecordOrder.Less(a, b), (s: string) => s)
  {
    forall a, b ensures RecordOrder.Less(a, b) || RecordOrder.Less(b, a) || a == b
      ensures !RecordOrder.Less(a, a)
    {
      RecordOrder.LessTotal(a, b);
      RecordOrder.LessTotal(a, a);
    }
    forall a, b, c | RecordOrder.Less(a, b) && RecordOrder.Less(b, c) ensures RecordOrder.Less(a, c) {
      RecordOrder.LessTransitive(a, b, c);
    }
  }

  lemma {:induction false} NameOrders()
    ensures Orders(TemplateLess, (t: Template) => t.name) && Orders(EntryLess, (e: Entry) => e.id)
    ensures Orders(FigureLess, (f: Figure) => f.filename) && Orders(DataFileLess, (f: DataFile) => f.filename)
    ensures Orders(ItemLess, (i: Item) => i.ordinal)
  {
    var less, key := (a: string, b: string) => RecordOrder.Less(a, b), (s: string) => s;
    StringOrders();
    assert forall a, b: string :: less(a, b) == RecordOrder.Less(a, b);
    assert forall a: string :: key(a) == a;
  }

  lemma {:induction false} RecordLessTransitive(a: Record, b: Record, c: Record)
    requires RecordLess(a, b) && RecordLess(b, c)
    ensures RecordLess(a, c)
  {
    RecordOrder.LessTotal(a.date, b.date);
    RecordOrder.LessTotal(a.dayOrder, b.dayOrder);
    RecordOrder.LessTotal(a.date, a.date);
    RecordOrder.LessTotal(a.dayOrder, a.dayOrder);
    if a.date != b.date && b.date != c.date {
      RecordOrder.LessTransitive(a.date, b.date, c.date);
    } else if a.date == b.date && b.date == c.date {
      if a.dayOrder != b.dayOrder && b.dayOrder != c.dayOrder {
        RecordOrder.LessTransitive(a.dayOrder, b.dayOrder, c.dayOrder);
      } else if a.dayOrder == b.dayOrder && b.dayOrder == c.dayOrder {
        RecordOrder.LessTransitive(a.id, b.id, c.id);
      }
    }
  }

  lemma {:induction false} DateOrders()
    ensures Orders(RecordLess, (r: Record) => r.id) && Orders(ChatLess, (c: Chat) => c.id)
  {
    forall a, b: Record
      ensures RecordLess(a, b) || RecordLess(b, a) || a.id == b.id
      ensures !RecordLess(a, a)
    {
      RecordOrder.LessTotal(a.date, b.date);
      RecordOrder.LessTotal(a.dayOrder, b.dayOrder);
      RecordOrder.LessTotal(a.id, b.id);
      RecordOrder.LessTotal(a.id, a.id);
    }
    forall a, b, c | RecordLess(a, b) && RecordLess(b, c) ensures RecordLess(a, c) {
      RecordLessTransitive(a, b, c);
    }
    forall a, b: Chat
      ensures ChatLess(a, b) || ChatLess(b, a) || a.id == b.id
      ensures !ChatLess(a, a)
    {
      RecordOrder.LessTotal(a.id, b.id);
      RecordOrder.LessTotal(a.id, a.id);
    }
    forall a, b, c | ChatLess(a, b) && ChatLess(b, c) ensures ChatLess(a, c) {
      if a.lastActivityAt == b.lastActivityAt == c.lastActivityAt {
        RecordOrder.LessTransitive(a.id, b.id, c.id);
      }
    }
  }

  // ----- one entry each

  /** validatePathSegment */
  predicate Segment(s: string) { !Blank(s) && s != "." && s != ".." && '/' !in s && '\\' !in s }

  const HTML := ".html"

  function EncodeTemplate(t: Template): Option<string> { if Segment(t.name) then Some(t.html) else None }

  function DecodeTemplate(file: string, html: string): Option<Template> {
    if |file| < |HTML| || file[|file| - |HTML|..] != HTML then None
    else
      var name := file[..|file| - |HTML|];
      if Segment(name) then Some(Template(name, html)) else None
  }

  function Metas(figures: seq<Figure>): (ms: seq<FigureMeta>)
    ensures |ms| == |figures| && forall i :: 0 <= i < |ms| ==> ms[i] == FigureMeta(figures[i].filename, figures[i].info)
  {
    if figures == [] then []
    else Metas(figures[..|figures| - 1]) + [FigureMeta(figures[|figures| - 1].filename, figures[|figures| - 1].info)]
  }

  function FigureFiles(figures: seq<Figure>): map<string, string> {
    if figures == [] then map[]
    else FigureFiles(figures[..|figures| - 1])[figures[|figures| - 1].filename := figures[|figures| - 1].content]
  }

  function CanonRecord(r: Record): Record {
    r.(figures := Sort(r.figures, FigureLess), dataFiles := Sort(r.dataFiles, DataFileLess))
  }

  predicate SegmentsOfRecord(r: Record) {
    && Segment(r.id)
    && (forall f :: f in r.figures ==> Segment(f.filename))
    && (forall f :: f in r.dataFiles ==> Segment(f.filename))
  }

  function EncodeRecord(r: Record): Option<RecordDir> {
    if !SegmentsOfRecord(r) then None
    else
      var figures := Sort(r.figures, FigureLess);
      Some(RecordDir(
        Some(RecordMeta(RECORD_VERSION, r.id, r.date, r.dayOrder, r.projectId, r.deviceId, r.body,
                        r.notes.Some?, Metas(figures), Sort(r.dataFiles, DataFileLess))),
        r.html, r.notes, FigureFiles(figures)))
  }

  /** The figures the metadata lists, each with its file. */
  function DecodeEach(lfs: string -> bool, files: map<string, string>, metas: seq<FigureMeta>): Option<seq<Figure>> {
    if metas == [] then Some([])
    else
      var n := |metas| - 1;
      var before := DecodeEach(lfs, files, metas[..n]);
      var name := metas[n].filename;
      if before.None? || !Segment(name) || name !in files || lfs(files[name]) then None
      else Some(before.value + [Figure(name, metas[n].info, files[name])])
  }

  /** readFigures: no file but those. */
  function DecodeFigures(lfs: string -> bool, files: map<string, string>, metas: seq<FigureMeta>): Option<seq<Figure>> {
    var figures := DecodeEach(lfs, files, metas);
    if figures.None? || !(files.Keys <= (set m | m in metas :: m.filename)) then None else figures
  }

  function DecodeRecord(lfs: string -> bool, id: string, d: RecordDir): Option<Record> {
    if !Segment(id) || d.meta.None? then None
    else
      var m := d.meta.value;
      if m.version != RECORD_VERSION || m.id != id || Blank(m.projectId) || Blank(m.deviceId) then None
      else if m.hasNotes != d.notes.Some? then None
      else
        var figures := DecodeFigures(lfs, d.figures, m.figures);
        if figures.None? || exists f :: f in m.dataFiles && !Segment(f.filename) then None
        else Some(Record(id, m.date, m.dayOrder, m.projectId, m.deviceId, m.body, d.html, d.notes,
            figures.value, m.dataFiles))
  }

  /** The file name a managed raw-source key gives the raw file in the export. */
  function RawName(id: string, key: string): Option<string> {
    var prefix := "chats/raw/" + id + "/";
    if key == prefix + "source.json" then Some("source.json")
    else if key == prefix + "source.jsonl" then Some("source.jsonl")
    else if key == prefix + "source.ndjson" then Some("source.ndjson")
    else None
  }

  function CanonChat(c: Chat): Chat { c.(items := Sort(c.items, ItemLess)) }

  function EncodeChat(c: Chat): Option<ChatDir> {
    if !Segment(c.id) then None
    else
      var meta := Some(ChatMeta(CHAT_VERSION, None, c.id, c.lastActivityAt, c.body, c.rawKey));
      var items := Some(Sort(c.items, ItemLess));
      if c.rawKey.None? then Some(ChatDir(meta, items, map[]))
      else
        var name := RawName(c.id, c.rawKey.value);
        if c.raw == "" || name.None? then None else Some(ChatDir(meta, items, map[name.value := c.raw]))
  }

  predicate DistinctOrdinals(items: seq<Item>) {
    forall i, j :: 0 <= i < j < |items| ==> items[i].ordinal != items[j].ordinal
  }

  function DecodeItems(lines: seq<Item>): Option<seq<Item>> {
    if DistinctOrdinals(lines) then Some(Sort(lines, ItemLess)) else None
  }

  function DecodeChat(id: string, d: ChatDir): Option<Chat> {
    if !Segment(id) || d.meta.None? || d.items.None? then None
    else
      var m, items := d.meta.value, DecodeItems(d.items.value);
      if m.version != CHAT_VERSION || m.legacyPath.Some? || m.id != id || items.None? then None
      else if m.rawKey.None? then Some(Chat(id, m.lastActivityAt, m.body, None, "", items.value))
      else
        var name := RawName(id, m.rawKey.value);
        if name.None? || name.value !in d.raw then None
        else Some(Chat(id, m.lastActivityAt, m.body, m.rawKey, d.raw[name.value], items.value))
  }

  const TEMPLATES := Codec((t: Template) => t.name + HTML, EncodeTemplate, DecodeTemplate, (t: Template) => t)

  function Records(lfs: string -> bool): Codec<Record, RecordDir> {
    Codec((r: Record) => r.id, EncodeRecord, (id: string, d: RecordDir) => DecodeRecord(lfs, id, d), CanonRecord)
  }

  const CHATS := Codec((c: Chat) => c.id, EncodeChat, DecodeChat, CanonChat)

  // ----- registries

  predicate ValidEntry(e: Entry) { !Blank(e.id) && e.createdAt != ZERO_TIME && e.updatedAt != ZERO_TIME }

  predicate DistinctIds(es: seq<Entry>) { forall i, j :: 0 <= i < j < |es| ==> es[i].id != es[j].id }

  function WriteRegistry(es: seq<Entry>): Option<seq<Entry>> {
    if forall e :: e in es ==> ValidEntry(e) then Some(Sort(es, EntryLess)) else None
  }

  function ReadRegistry(file: seq<Entry>): Option<seq<Entry>> {
    if DistinctIds(file) && forall e :: e in file ==> !Blank(e.id) then Some(Sort(file, EntryLess)) else None
  }

  // ----- the snapshot

  /** Writing does not look for the large-file stubs that reading refuses. */
  function Write(s: Snapshot): Option<Tree> {
    var templates := WriteAll(TEMPLATES, Sort(s.templates, TemplateLess));
    var records := WriteAll(Records(_ => false), Sort(s.records, RecordLess));
    var chats := WriteAll(CHATS, Sort(s.chats, ChatLess));
    var projects, devices := WriteRegistry(s.projects), WriteRegistry(s.devices);
    if templates.None? || records.None? || chats.None? || projects.None? || devices.None? then None
    else Some(Tree(templates.value, projects.value, devices.value, records.value,
                   if s.chats == [] then None else chats))
  }

  /** The order in which each directory is listed. */
  datatype Listings = Listings(templates: seq<string>, records: seq<string>, chats: seq<string>)

  ghost predicate Listed(l: Listings, t: Tree) {
    && Listing(l.templates, t.templates) && Listing(l.records, t.records)
    && Listing(l.chats, if t.chats.Some? then t.chats.value else map[])
  }

  /** lfs recognises the stubs that Git LFS leaves in the place of large files. */
  function Read(t: Tree, lfs: string -> bool, l: Listings): Option<Snapshot> {
    var templates := ReadAll(TEMPLATES, t.templates, l.templates);
    var records := ReadAll(Records(lfs), t.records, l.records);
    var projects, devices := ReadRegistry(t.projects), ReadRegistry(t.devices);
    var chats := if t.chats.None? then Some([]) else ReadAll(CHATS, t.chats.value, l.chats);
    if templates.None? || records.None? || projects.None? || devices.None? || chats.None? then None
    else Some(Snapshot(Sort(templates.value, TemplateLess), projects.value, devices.value,
                       Sort(records.value, RecordLess), Sort(chats.value, ChatLess)))
  }

  /** Every list sorted, those inside records and chats too. */
  function Canonical(s: Snapshot): Snapshot {
    Snapshot(Sort(s.templates, TemplateLess), Sort(s.projects, EntryLess), Sort(s.devices, EntryLess),
             Canon(CanonRecord, Sort(s.records, RecordLess)), Canon(CanonChat, Sort(s.chats, ChatLess)))
  }
}
