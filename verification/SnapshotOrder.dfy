/** Writing a snapshot gives the same tree whatever the order of its lists. */
module SnapshotOrder {
  import opened Common
  import opened Sorting
  import opened KeyedDirectory
  import opened SnapshotTree
  import opened SnapshotRoundTrip

  predicate DistinctFigures(fs: seq<Figure>) { forall i, j :: 0 <= i < j < |fs| ==> fs[i].filename != fs[j].filename }

  predicate DistinctDataFiles(fs: seq<DataFile>) {
    forall i, j :: 0 <= i < j < |fs| ==> fs[i].filename != fs[j].filename
  }

  /** The same record with its figures and data files in another order. */
  predicate ShuffledRecord(r: Record, q: Record) {
    && q == r.(figures := q.figures, dataFiles := q.dataFiles)
    && multiset(r.figures) == multiset(q.figures) && multiset(r.dataFiles) == multiset(q.dataFiles)
  }

  predicate ShuffledChat(c: Chat, d: Chat) { d == c.(items := d.items) && multiset(c.items) == multiset(d.items) }

  ghost predicate ShuffledRecords(a: seq<Record>, b: seq<Record>) {
    forall r :: r in a ==> exists q :: q in b && ShuffledRecord(r, q)
  }

  ghost predicate ShuffledChats(a: seq<Chat>, b: seq<Chat>) {
    forall c :: c in a ==> exists d :: d in b && ShuffledChat(c, d)
  }

  /** The same snapshot with its lists, and the lists in those, in another order. */
  ghost predicate Shuffled(s: Snapshot, t: Snapshot) {
    && multiset(s.templates) == multiset(t.templates)
    && multiset(s.projects) == multiset(t.projects) && multiset(s.devices) == multiset(t.devices)
    && ShuffledRecords(s.records, t.records) && ShuffledRecords(t.records, s.records)
    && ShuffledChats(s.chats, t.chats) && ShuffledChats(t.chats, s.chats)
  }

  /** Nothing is there twice. */
  predicate Unique(s: Snapshot) {
    && DistinctNames(s.templates) && DistinctIds(s.projects) && DistinctIds(s.devices)
    && DistinctRecords(s.records) && (forall r :: r in s.records ==>
        DistinctFigures(r.figures) && DistinctDataFiles(r.dataFiles))
    && DistinctChats(s.chats) && (forall c :: c in s.chats ==> DistinctOrdinals(c.items))
  }

  lemma {:induction false} SameElements<T>(a: seq<T>, b: seq<T>)
    requires multiset(a) == multiset(b)
    ensures forall x :: x in a <==> x in b
  {
    forall x ensures x in a <==> x in b {
      assert x in multiset(a) <==> x in multiset(b);
    }
  }

  lemma {:induction false} RecordWrittenAlike(r: Record, q: Record)
    requires ShuffledRecord(r, q) && DistinctFigures(r.figures) && DistinctDataFiles(r.dataFiles)
    ensures EncodeRecord(r) == EncodeRecord(q)
  {
    NameOrders();
    var figure, dataFile := (f: Figure) => f.filename, (f: DataFile) => f.filename;
    assert DistinctKeys(r.figures, figure) && DistinctKeys(r.dataFiles, dataFile);
    PermutedKeys(r.figures, q.figures, figure);
    PermutedKeys(r.dataFiles, q.dataFiles, dataFile);
    SameElements(r.figures, q.figures);
    SameElements(r.dataFiles, q.dataFiles);
    SortIgnoresOrder(r.figures, q.figures, FigureLess, figure);
    SortIgnoresOrder(r.dataFiles, q.dataFiles, DataFileLess, dataFile);
    assert SegmentsOfRecord(r) == SegmentsOfRecord(q);
  }

  lemma {:induction false} ChatWrittenAlike(c: Chat, d: Chat)
    requires ShuffledChat(c, d) && DistinctOrdinals(c.items)
    ensures EncodeChat(c) == EncodeChat(d)
  {
    NameOrders();
    var ordinal := (i: Item) => i.ordinal;
    assert DistinctKeys(c.items, ordinal);
    PermutedKeys(c.items, d.items, ordinal);
    SameElements(c.items, d.items);
    SortIgnoresOrder(c.items, d.items, ItemLess, ordinal);
  }

  lemma {:induction false} TemplatesAlike(a: seq<Template>, b: seq<Template>)
    requires multiset(a) == multiset(b) && DistinctNames(a)
    ensures Sort(a, TemplateLess) == Sort(b, TemplateLess)
  {
    NameOrders();
    var name := (t: Template) => t.name;
    assert DistinctKeys(a, name);
    PermutedKeys(a, b, name);
    SameElements(a, b);
    SortIgnoresOrder(a, b, TemplateLess, name);
  }

  lemma {:induction false} RegistriesAlike(a: seq<Entry>, b: seq<Entry>)
    requires multiset(a) == multiset(b) && DistinctIds(a)
    ensures WriteRegistry(a) == WriteRegistry(b)
  {
    NameOrders();
    var id := (e: Entry) => e.id;
    assert DistinctKeys(a, id);
    PermutedKeys(a, b, id);
    SameElements(a, b);
    SortIgnoresOrder(a, b, EntryLess, id);
  }

  lemma {:induction false} RecordsAlike(a: seq<Record>, b: seq<Record>)
    requires ShuffledRecords(a, b) && ShuffledRecords(b, a) && DistinctRecords(a) && DistinctRecords(b)
    requires forall r :: r in a || r in b ==> DistinctFigures(r.figures) && DistinctDataFiles(r.dataFiles)
    ensures WriteAll(Records(_ => false), Sort(a, RecordLess)) == WriteAll(Records(_ => false), Sort(b, RecordLess))
  {
    DateOrders();
    var c, id := Records(_ => false), (r: Record) => r.id;
    assert forall r: Record :: c.key(r) == id(r);
    SortKeepsKeysDistinct(a, RecordLess, id);
    SortKeepsKeysDistinct(b, RecordLess, id);
    RecordEntriesAlike(a, b);
    RecordEntriesAlike(b, a);
    WriteIgnoresOrder(c, Sort(a, RecordLess), Sort(b, RecordLess));
  }

  lemma {:induction false} RecordEntriesAlike(a: seq<Record>, b: seq<Record>)
    requires ShuffledRecords(a, b)
    requires forall r :: r in a ==> DistinctFigures(r.figures) && DistinctDataFiles(r.dataFiles)
    ensures SameEntries(Records(_ => false), Sort(a, RecordLess), Sort(b, RecordLess))
  {
    var c := Records(_ => false);
    forall r | r in Sort(a, RecordLess)
      ensures exists q :: q in Sort(b, RecordLess) && c.key(q) == c.key(r) && c.enc(q) == c.enc(r)
    {
      var q :| q in b && ShuffledRecord(r, q);
      RecordWrittenAlike(r, q);
      assert q in Sort(b, RecordLess) && c.key(q) == c.key(r) && c.enc(q) == c.enc(r);
    }
  }

  lemma {:induction false} ChatsAlike(a: seq<Chat>, b: seq<Chat>)
    requires ShuffledChats(a, b) && ShuffledChats(b, a) && DistinctChats(a) && DistinctChats(b)
    requires forall c :: c in a || c in b ==> DistinctOrdinals(c.items)
    ensures WriteAll(CHATS, Sort(a, ChatLess)) == WriteAll(CHATS, Sort(b, ChatLess))
  {
    DateOrders();
    var id := (c: Chat) => c.id;
    assert forall c: Chat :: CHATS.key(c) == id(c);
    SortKeepsKeysDistinct(a, ChatLess, id);
    SortKeepsKeysDistinct(b, ChatLess, id);
    ChatEntriesAlike(a, b);
    ChatEntriesAlike(b, a);
    WriteIgnoresOrder(CHATS, Sort(a, ChatLess), Sort(b, ChatLess));
  }

  lemma {:induction false} ChatEntriesAlike(a: seq<Chat>, b: seq<Chat>)
    requires ShuffledChats(a, b) && forall c :: c in a ==> DistinctOrdinals(c.items)
    ensures SameEntries(CHATS, Sort(a, ChatLess), Sort(b, ChatLess))
  {
    forall c | c in Sort(a, ChatLess)
      ensures exists d :: d in Sort(b, ChatLess) && CHATS.key(d) == CHATS.key(c) && CHATS.enc(d) == CHATS.enc(c)
    {
      var d :| d in b && ShuffledChat(c, d);
      ChatWrittenAlike(c, d);
      assert d in Sort(b, ChatLess) && CHATS.key(d) == CHATS.key(c) && CHATS.enc(d) == CHATS.enc(c);
    }
  }

  /** A snapshot and a shuffled one are written as the same tree. */
  lemma {:induction false} WriteIgnoresListOrder(s: Snapshot, t: Snapshot)
    requires Shuffled(s, t) && Unique(s) && Unique(t)
    ensures Write(s) == Write(t)
  {
    TemplatesAlike(s.templates, t.templates);
    RegistriesAlike(s.projects, t.projects);
    RegistriesAlike(s.devices, t.devices);
    RecordsAlike(s.records, t.records);
    ChatsAlike(s.chats, t.chats);
    HeadIsIn(s.chats);
    HeadIsIn(t.chats);
  }
}
