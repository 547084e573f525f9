/** Writing a snapshot and reading it back, in any listing order, is sorting it. */
module SnapshotRoundTrip {
  import opened Common
  import opened Text
  import opened Sorting
  import opened KeyedDirectory
  import opened SnapshotTree

  // ----- one template, one record, one chat

  lemma {:induction false} TemplateSurvivesExactly(t: Template)
    ensures Survives(TEMPLATES, t) <==> Segment(t.name)
  {
    assert (t.name + HTML)[..|t.name|] == t.name && (t.name + HTML)[|t.name|..] == HTML;
  }

  /** Figures of one name have one content: they share a file. */
  predicate Consistent(fs: seq<Figure>) {
    forall f, g :: f in fs && g in fs && f.filename == g.filename ==> f.content == g.content
  }

  lemma {:induction false} FigureFilesHold(fs: seq<Figure>)
    ensures forall name :: name in FigureFiles(fs) <==> exists f :: f in fs && f.filename == name
    ensures forall name :: name in FigureFiles(fs) ==>
      exists f :: f in fs && f.filename == name && FigureFiles(fs)[name] == f.content
  {
    if fs != [] {
      var n := |fs| - 1;
      FigureFilesHold(fs[..n]);
      assert fs == fs[..n] + [fs[n]];
      assert forall f :: f in fs <==> f in fs[..n] || f == fs[n];
    }
  }

  predicate Found(lfs: string -> bool, files: map<string, string>, m: FigureMeta) {
    Segment(m.filename) && m.filename in files && !lfs(files[m.filename])
  }

  lemma {:induction false} DecodeEachIs(lfs: string -> bool, files: map<string, string>, metas: seq<FigureMeta>)
    ensures var out := DecodeEach(lfs, files, metas);
      && (out.Some? <==> forall i :: 0 <= i < |metas| ==> Found(lfs, files, metas[i]))
      && (out.Some? ==>
            && |out.value| == |metas|
            && forall i :: 0 <= i < |metas| ==>
                 out.value[i] == Figure(metas[i].filename, metas[i].info, files[metas[i].filename]))
  {
    if metas != [] {
      DecodeEachIs(lfs, files, metas[..|metas| - 1]);
    }
  }

  predicate Readable(lfs: string -> bool, fs: seq<Figure>) {
    forall f :: f in fs ==> Segment(f.filename) && !lfs(f.content)
  }

  lemma {:induction false} FilesListed(fs: seq<Figure>)
    ensures FigureFiles(fs).Keys <= (set m | m in Metas(fs) :: m.filename)
  {
    FigureFilesHold(fs);
    forall name | name in FigureFiles(fs) ensures name in (set m | m in Metas(fs) :: m.filename) {
      var f :| f in fs && f.filename == name;
      var i :| 0 <= i < |fs| && fs[i] == f;
      assert Metas(fs)[i] in Metas(fs) && Metas(fs)[i].filename == name;
    }
  }

  lemma {:induction false} FiguresBack(lfs: string -> bool, fs: seq<Figure>)
    requires Readable(lfs, fs) && Consistent(fs)
    ensures DecodeFigures(lfs, FigureFiles(fs), Metas(fs)) == Some(fs)
  {
    var files, metas := FigureFiles(fs), Metas(fs);
    FigureFilesHold(fs);
    DecodeEachIs(lfs, files, metas);
    forall i | 0 <= i < |metas| ensures Found(lfs, files, metas[i]) && files[metas[i].filename] == fs[i].content {
      assert fs[i] in fs && metas[i].filename == fs[i].filename;
    }
    FilesListed(fs);
    assert DecodeEach(lfs, files, metas).value == fs;
  }

  lemma {:induction false} FiguresLost(lfs: string -> bool, fs: seq<Figure>)
    requires DecodeFigures(lfs, FigureFiles(fs), Metas(fs)) == Some(fs)
    ensures Readable(lfs, fs) && Consistent(fs)
  {
    var files, metas := FigureFiles(fs), Metas(fs);
    DecodeEachIs(lfs, files, metas);
    assert DecodeEach(lfs, files, metas) == Some(fs);
    forall f | f in fs
      ensures Segment(f.filename) && f.filename in files && files[f.filename] == f.content && !lfs(f.content)
    {
      var i :| 0 <= i < |fs| && fs[i] == f;
      assert Found(lfs, files, metas[i]);
    }
  }

  /** The figures of a record come back exactly when each can be read and those of one name agree. */
  lemma {:induction false} FiguresBackExactly(lfs: string -> bool, fs: seq<Figure>)
    ensures DecodeFigures(lfs, FigureFiles(fs), Metas(fs)) == Some(fs) <==> Readable(lfs, fs) && Consistent(fs)
  {
    if Readable(lfs, fs) && Consistent(fs) {
      FiguresBack(lfs, fs);
    } else if DecodeFigures(lfs, FigureFiles(fs), Metas(fs)) == Some(fs) {
      FiguresLost(lfs, fs);
    }
  }

  predicate ValidRecord(lfs: string -> bool, r: Record) {
    && SegmentsOfRecord(r) && !Blank(r.projectId) && !Blank(r.deviceId)
    && Consistent(r.figures) && forall f :: f in r.figures ==> !lfs(f.content)
  }

  lemma {:induction false} RecordDecodes(lfs: string -> bool, r: Record)
    requires SegmentsOfRecord(r)
    ensures var fs := Sort(r.figures, FigureLess);
      DecodeRecord(lfs, r.id, EncodeRecord(r).value) == Some(CanonRecord(r)) <==>
        && !Blank(r.projectId) && !Blank(r.deviceId)
        && DecodeFigures(lfs, FigureFiles(fs), Metas(fs)) == Some(fs)
  {
    var d := EncodeRecord(r).value;
    assert forall f :: f in d.meta.value.dataFiles ==> Segment(f.filename);
  }

  lemma {:induction false} SortedFigures(lfs: string -> bool, fs: seq<Figure>)
    requires forall f :: f in fs ==> Segment(f.filename)
    ensures var sorted := Sort(fs, FigureLess);
      Readable(lfs, sorted) && Consistent(sorted) <==> Consistent(fs) && forall f :: f in fs ==> !lfs(f.content)
  {}

  lemma {:induction false} RecordSurvivesExactly(lfs: string -> bool, r: Record)
    ensures Survives(Records(lfs), r) <==> ValidRecord(lfs, r)
  {
    if SegmentsOfRecord(r) {
      RecordDecodes(lfs, r);
      FiguresBackExactly(lfs, Sort(r.figures, FigureLess));
      SortedFigures(lfs, r.figures);
    }
  }

  predicate ValidChat(c: Chat) {
    && Segment(c.id) && DistinctOrdinals(c.items)
    && (if c.rawKey.None? then c.raw == "" else c.raw != "" && RawName(c.id, c.rawKey.value).Some?)
  }

  lemma {:induction false} ItemsBack(items: seq<Item>)
    ensures DistinctOrdinals(items) ==> DecodeItems(Sort(items, ItemLess)) == Some(Sort(items, ItemLess))
    ensures !DistinctOrdinals(items) ==> DecodeItems(Sort(items, ItemLess)) == None
  {
    NameOrders();
    var key := (i: Item) => i.ordinal;
    var sorted := Sort(items, ItemLess);
    SortPermutes(items, ItemLess);
    assert DistinctOrdinals(items) <==> DistinctKeys(items, key);
    assert DistinctOrdinals(sorted) <==> DistinctKeys(sorted, key);
    if DistinctOrdinals(items) {
      PermutedKeys(items, sorted, key);
      SortIgnoresOrder(sorted, items, ItemLess, key);
    } else if DistinctOrdinals(sorted) {
      PermutedKeys(sorted, items, key);
    }
  }

  lemma {:induction false} ChatSurvivesExactly(c: Chat)
    ensures Survives(CHATS, c) <==> ValidChat(c)
  {
    ItemsBack(c.items);
  }

  lemma {:induction false} RegistryBackExactly(es: seq<Entry>)
    ensures WriteRegistry(es).Some? && ReadRegistry(WriteRegistry(es).value) == Some(Sort(es, EntryLess)) <==>
            DistinctIds(es) && forall e :: e in es ==> ValidEntry(e)
  {
    NameOrders();
    var key := (e: Entry) => e.id;
    var sorted := Sort(es, EntryLess);
    SortPermutes(es, EntryLess);
    assert DistinctIds(es) <==> DistinctKeys(es, key);
    assert DistinctIds(sorted) <==> DistinctKeys(sorted, key);
    if DistinctIds(es) {
      PermutedKeys(es, sorted, key);
      SortIgnoresOrder(sorted, es, EntryLess, key);
    } else if DistinctIds(sorted) {
      PermutedKeys(sorted, es, key);
    }
  }

  // ----- the snapshot

  lemma {:induction false} CodecsSound(lfs: string -> bool)
    ensures Sound(TEMPLATES) && Sound(Records(lfs)) && Sound(CHATS)
  {
    forall file, html | DecodeTemplate(file, html).Some? ensures DecodeTemplate(file, html).value.name + HTML == file {
      assert file == file[..|file| - |HTML|] + file[|file| - |HTML|..];
    }
  }

  lemma {:induction false} CodecsOrdered(lfs: string -> bool)
    ensures Orders(TemplateLess, TEMPLATES.key) && Orders(RecordLess, Records(lfs).key) && Orders(ChatLess, CHATS.key)
  {
    NameOrders();
    DateOrders();
    var name, id, chatId := (t: Template) => t.name, (r: Record) => r.id, (c: Chat) => c.id;
    assert forall t: Template :: TEMPLATES.key(t) == name(t) + HTML;
    assert forall r: Record :: Records(lfs).key(r) == id(r);
    assert forall c: Chat :: CHATS.key(c) == chatId(c);
  }

  predicate DistinctNames(ts: seq<Template>) { forall i, j :: 0 <= i < j < |ts| ==> ts[i].name != ts[j].name }

  predicate DistinctRecords(rs: seq<Record>) { forall i, j :: 0 <= i < j < |rs| ==> rs[i].id != rs[j].id }

  predicate DistinctChats(cs: seq<Chat>) { forall i, j :: 0 <= i < j < |cs| ==> cs[i].id != cs[j].id }

  /** What a snapshot must be to come back. */
  predicate Valid(s: Snapshot, lfs: string -> bool) {
    && DistinctNames(s.templates) && (forall t :: t in s.templates ==> Segment(t.name))
    && DistinctRecords(s.records) && (forall r :: r in s.records ==> ValidRecord(lfs, r))
    && DistinctChats(s.chats) && (forall c :: c in s.chats ==> ValidChat(c))
    && DistinctIds(s.projects) && (forall e :: e in s.projects ==> ValidEntry(e))
    && DistinctIds(s.devices) && (forall e :: e in s.devices ==> ValidEntry(e))
  }

  ghost predicate RoundTrips(s: Snapshot, lfs: string -> bool, l: Listings) {
    Write(s).Some? && Read(Write(s).value, lfs, l) == Some(Canonical(s))
  }

  /** The recogniser of large-file stubs does not matter to writing. */
  lemma {:induction false} SameWriting(lfs: string -> bool, rs: seq<Record>)
    ensures WriteAll(Records(lfs), rs) == WriteAll(Records(_ => false), rs)
  {
    if rs != [] {
      SameWriting(lfs, rs[..|rs| - 1]);
    }
  }

  lemma {:induction false} OrdersKept(lfs: string -> bool)
    ensures OrderKept(TEMPLATES, TemplateLess) && OrderKept(Records(lfs), RecordLess) && OrderKept(CHATS, ChatLess)
  {}

  lemma {:induction false} TemplatesBack(ts: seq<Template>, names: seq<string>)
    requires WriteAll(TEMPLATES, Sort(ts, TemplateLess)).Some? ==>
        Listing(names, WriteAll(TEMPLATES, Sort(ts, TemplateLess)).value)
    ensures SortedBack(TEMPLATES, ts, names, TemplateLess) <==> DistinctNames(ts) && forall t :: t in ts ==>
        Segment(t.name)
  {
    CodecsSound(_ => false);
    CodecsOrdered(_ => false);
    OrdersKept(_ => false);
    SortedBackExactly(TEMPLATES, ts, names, TemplateLess);
    forall t ensures Survives(TEMPLATES, t) <==> Segment(t.name) {
      TemplateSurvivesExactly(t);
    }
    forall i, j | 0 <= i < j < |ts| ensures TEMPLATES.key(ts[i]) == TEMPLATES.key(ts[j]) <==> ts[i].name == ts[j].name {
      assert (ts[i].name + HTML)[..|ts[i].name + HTML| - |HTML|] == ts[i].name;
      assert (ts[j].name + HTML)[..|ts[j].name + HTML| - |HTML|] == ts[j].name;
    }
  }

  lemma {:induction false} RecordsBack(lfs: string -> bool, rs: seq<Record>, names: seq<string>)
    requires WriteAll(Records(lfs), Sort(rs, RecordLess)).Some? ==>
        Listing(names, WriteAll(Records(lfs), Sort(rs, RecordLess)).value)
    ensures SortedBack(Records(lfs), rs, names, RecordLess) <==> DistinctRecords(rs) && forall r :: r in rs ==>
        ValidRecord(lfs, r)
  {
    CodecsSound(lfs);
    CodecsOrdered(lfs);
    OrdersKept(lfs);
    SortedBackExactly(Records(lfs), rs, names, RecordLess);
    forall r ensures Survives(Records(lfs), r) <==> ValidRecord(lfs, r) {
      RecordSurvivesExactly(lfs, r);
    }
  }

  lemma {:induction false} ChatsBack(cs: seq<Chat>, names: seq<string>)
    requires WriteAll(CHATS, Sort(cs, ChatLess)).Some? ==> Listing(names, WriteAll(CHATS, Sort(cs, ChatLess)).value)
    ensures SortedBack(CHATS, cs, names, ChatLess) <==> DistinctChats(cs) && forall c :: c in cs ==> ValidChat(c)
  {
    CodecsSound(_ => false);
    CodecsOrdered(_ => false);
    OrdersKept(_ => false);
    SortedBackExactly(CHATS, cs, names, ChatLess);
    forall c ensures Survives(CHATS, c) <==> ValidChat(c) {
      ChatSurvivesExactly(c);
    }
  }

  predicate RegistryBack(es: seq<Entry>) {
    WriteRegistry(es).Some? && ReadRegistry(WriteRegistry(es).value) == Some(Sort(es, EntryLess))
  }

  /** An absent directory of chats reads as an empty one. */
  function ChatsOf(t: Tree): Dir<ChatDir> { if t.chats.Some? then t.chats.value else map[] }

  lemma {:induction false} WrittenParts(s: Snapshot, lfs: string -> bool)
    requires Write(s).Some?
    ensures var t := Write(s).value;
      && WriteAll(TEMPLATES, Sort(s.templates, TemplateLess)) == Some(t.templates)
      && WriteAll(Records(lfs), Sort(s.records, RecordLess)) == Some(t.records)
      && WriteAll(CHATS, Sort(s.chats, ChatLess)) == Some(ChatsOf(t))
      && WriteRegistry(s.projects) == Some(t.projects) && WriteRegistry(s.devices) == Some(t.devices)
  {
    SameWriting(lfs, Sort(s.records, RecordLess));
    if s.chats == [] {
      assert Sort(s.chats, ChatLess) == [];
    }
  }

  lemma {:induction false} ReadParts(t: Tree, lfs: string -> bool, l: Listings, s: Snapshot)
    requires Listing(l.chats, ChatsOf(t))
    ensures Read(t, lfs, l) == Some(s) <==>
            && (var x := ReadAll(TEMPLATES, t.templates, l.templates);
                x.Some? && Sort(x.value, TemplateLess) == s.templates)
            && (var x := ReadAll(Records(lfs), t.records, l.records); x.Some? && Sort(x.value, RecordLess) == s.records)
            && (var x := ReadAll(CHATS, ChatsOf(t), l.chats); x.Some? && Sort(x.value, ChatLess) == s.chats)
            && ReadRegistry(t.projects) == Some(s.projects) && ReadRegistry(t.devices) == Some(s.devices)
  {
    if t.chats.None? {
      HeadIsIn(l.chats);
      assert l.chats == [];
    }
  }

  /** The tree and what is read from it, part by part. */
  lemma {:induction false} PartsBack(s: Snapshot, lfs: string -> bool, l: Listings)
    requires Write(s).Some? && Listed(l, Write(s).value)
    ensures RoundTrips(s, lfs, l) <==>
            && SortedBack(TEMPLATES, s.templates, l.templates, TemplateLess)
            && SortedBack(Records(lfs), s.records, l.records, RecordLess)
            && SortedBack(CHATS, s.chats, l.chats, ChatLess)
            && RegistryBack(s.projects) && RegistryBack(s.devices)
  {
    WrittenParts(s, lfs);
    ReadParts(Write(s).value, lfs, l, Canonical(s));
    CanonIdentity(Sort(s.templates, TemplateLess));
  }

  lemma {:induction false} CanonIdentity(ts: seq<Template>)
    ensures Canon(TEMPLATES.canon, ts) == ts
  {}

  /** What cannot be written is not valid. */
  lemma {:induction false} ValidIsWritten(s: Snapshot, lfs: string -> bool)
    requires Valid(s, lfs)
    ensures Write(s).Some?
  {
    SameWriting(lfs, Sort(s.records, RecordLess));
    if WriteAll(TEMPLATES, Sort(s.templates, TemplateLess)).None? {
      TemplatesBack(s.templates, []);
    }
    if WriteAll(Records(lfs), Sort(s.records, RecordLess)).None? {
      RecordsBack(lfs, s.records, []);
    }
    if WriteAll(CHATS, Sort(s.chats, ChatLess)).None? {
      ChatsBack(s.chats, []);
    }
    RegistryBackExactly(s.projects);
    RegistryBackExactly(s.devices);
  }

  /** In whatever order the directories are listed, what is read is the canonical form of what was
      written, exactly when the snapshot is valid. */
  lemma {:induction false} RoundTripExactly(s: Snapshot, lfs: string -> bool, l: Listings)
    requires Write(s).Some? ==> Listed(l, Write(s).value)
    ensures RoundTrips(s, lfs, l) <==> Valid(s, lfs)
  {
    if Write(s).Some? {
      PartsBack(s, lfs, l);
      WrittenParts(s, lfs);
      TemplatesBack(s.templates, l.templates);
      RecordsBack(lfs, s.records, l.records);
      ChatsBack(s.chats, l.chats);
      RegistryBackExactly(s.projects);
      RegistryBackExactly(s.devices);
    } else if Valid(s, lfs) {
      ValidIsWritten(s, lfs);
    }
  }
}
