/** The writer and the reader of a snapshot as loops, proved against the functions on its tree. */
module SnapshotFiles {
  import opened Common
  import opened Text
  import opened Sorting
  import opened KeyedDirectory
  import opened SnapshotTree
  import opened SnapshotRoundTrip

  /** A writer that gives up at the first failure. */
  lemma {:induction false} WriteStops<X(!new), E(!new)>(c: Codec<X, E>, xs: seq<X>, n: nat)
    requires n <= |xs| && WriteAll(c, xs[..n]).None?
    ensures WriteAll(c, xs).None?
  {
    if n == |xs| {
      assert xs[..n] == xs;
    } else {
      assert xs[..|xs| - 1][..n] == xs[..n];
      WriteStops(c, xs[..|xs| - 1], n);
    }
  }

  lemma {:induction false} ReadStops<X(!new), E(!new)>(c: Codec<X, E>, dir: Dir<E>, names: seq<string>, n: nat)
    requires n <= |names| && ReadAll(c, dir, names[..n]).None?
    ensures ReadAll(c, dir, names).None?
  {
    if n == |names| {
      assert names[..n] == names;
    } else {
      assert names[..|names| - 1][..n] == names[..n];
      ReadStops(c, dir, names[..|names| - 1], n);
    }
  }

  method WriteDirectory<X(!new), E(!new)>(c: Codec<X, E>, xs: seq<X>) returns (dir: Option<Dir<E>>)
    ensures dir == WriteAll(c, xs)
  {
    var files: Dir<E> := map[];
    var i := 0;
    while i < |xs|
      invariant 0 <= i <= |xs| && WriteAll(c, xs[..i]) == Some(files)
    {
      var e := c.enc(xs[i]);
      assert xs[..i + 1][..i] == xs[..i];
      if e.None? {
        WriteStops(c, xs, i + 1);
        return None;
      }
      files := files[c.key(xs[i]) := e.value];
      i := i + 1;
    }
    assert xs[..i] == xs;
    dir := Some(files);
  }

  method ReadDirectory<X(!new), E(!new)>(c: Codec<X, E>, dir: Dir<E>, names: seq<string>) returns (out: Option<seq<X>>)
    ensures out == ReadAll(c, dir, names)
  {
    var xs: seq<X> := [];
    var i := 0;
    while i < |names|
      invariant 0 <= i <= |names| && ReadAll(c, dir, names[..i]) == Some(xs)
    {
      var x := if names[i] in dir then c.dec(names[i], dir[names[i]]) else None;
      assert names[..i + 1][..i] == names[..i];
      if x.None? {
        ReadStops(c, dir, names, i + 1);
        return None;
      }
      xs := xs + [x.value];
      i := i + 1;
    }
    assert names[..i] == names;
    out := Some(xs);
  }

  /** The figure files of a record and what its metadata says of them. */
  method WriteFigures(figures: seq<Figure>) returns (files: map<string, string>, metas: seq<FigureMeta>)
    ensures files == FigureFiles(figures) && metas == Metas(figures)
  {
    files, metas := map[], [];
    var i := 0;
    while i < |figures|
      invariant 0 <= i <= |figures| && files == FigureFiles(figures[..i]) && metas == Metas(figures[..i])
    {
      assert figures[..i + 1][..i] == figures[..i];
      files := files[figures[i].filename := figures[i].content];
      metas := metas + [FigureMeta(figures[i].filename, figures[i].info)];
      i := i + 1;
    }
    assert figures[..i] == figures;
  }

  /** validatePathSegment of the id and of every file name. */
  method WriteRecord(r: Record) returns (dir: Option<RecordDir>)
    ensures dir == EncodeRecord(r)
  {
    if !SegmentsOfRecord(r) {
      return None;
    }
    var files, metas := WriteFigures(Sort(r.figures, FigureLess));
    var meta := RecordMeta(RECORD_VERSION, r.id, r.date, r.dayOrder, r.projectId, r.deviceId, r.body,
                           r.notes.Some?, metas, Sort(r.dataFiles, DataFileLess));
    dir := Some(RecordDir(Some(meta), r.html, r.notes, files));
  }

  method WriteRecords(lfs: string -> bool, rs: seq<Record>) returns (dir: Option<Dir<RecordDir>>)
    ensures dir == WriteAll(Records(lfs), rs)
  {
    var dirs: Dir<RecordDir> := map[];
    ghost var c := Records(lfs);
    var i := 0;
    while i < |rs|
      invariant 0 <= i <= |rs| && WriteAll(c, rs[..i]) == Some(dirs)
    {
      var d := WriteRecord(rs[i]);
      assert rs[..i + 1][..i] == rs[..i] && d == c.enc(rs[i]);
      if d.None? {
        WriteStops(c, rs, i + 1);
        return None;
      }
      dirs := dirs[rs[i].id := d.value];
      i := i + 1;
    }
    assert rs[..i] == rs;
    dir := Some(dirs);
  }

  /** The figures the metadata lists; a missing file, a large-file stub or a file it does not list is an
      error. */
  method ReadFigures(lfs: string -> bool, files: map<string, string>,
      metas: seq<FigureMeta>) returns (out: Option<seq<Figure>>)
    ensures out == DecodeFigures(lfs, files, metas)
  {
    var figures: seq<Figure> := [];
    var expected: set<string> := {};
    var i := 0;
    DecodeEachIs(lfs, files, metas);
    while i < |metas|
      invariant 0 <= i <= |metas| && DecodeEach(lfs, files, metas[..i]) == Some(figures)
      invariant expected == set m | m in metas[..i] :: m.filename
    {
      var m := metas[i];
      assert metas[..i + 1][..i] == metas[..i] && metas[..i + 1] == metas[..i] + [m];
      if !Found(lfs, files, m) {
        return None;
      }
      expected := expected + {m.filename};
      figures := figures + [Figure(m.filename, m.info, files[m.filename])];
      i := i + 1;
    }
    assert metas[..i] == metas;
    out := if files.Keys <= expected then Some(figures) else None;
  }

  method ReadRecord(lfs: string -> bool, id: string, d: RecordDir) returns (r: Option<Record>)
    ensures r == DecodeRecord(lfs, id, d)
  {
    if !Segment(id) || d.meta.None? {
      return None;
    }
    var m := d.meta.value;
    if m.version != RECORD_VERSION || m.id != id || Blank(m.projectId) || Blank(m.deviceId) {
      return None;
    }
    if m.hasNotes != d.notes.Some? {
      return None;
    }
    var figures := ReadFigures(lfs, d.figures, m.figures);
    if figures.None? || exists f :: f in m.dataFiles && !Segment(f.filename) {
      return None;
    }
    r := Some(Record(id, m.date, m.dayOrder, m.projectId, m.deviceId, m.body, d.html, d.notes,
        figures.value, m.dataFiles));
  }

  method ReadRecords(lfs: string -> bool, dir: Dir<RecordDir>, names: seq<string>) returns (out: Option<seq<Record>>)
    ensures out == ReadAll(Records(lfs), dir, names)
  {
    var rs: seq<Record> := [];
    ghost var c := Records(lfs);
    var i := 0;
    while i < |names|
      invariant 0 <= i <= |names| && ReadAll(c, dir, names[..i]) == Some(rs)
    {
      var r := None;
      if names[i] in dir {
        r := ReadRecord(lfs, names[i], dir[names[i]]);
      }
      assert names[..i + 1][..i] == names[..i];
      assert names[i] in dir ==> r == c.dec(names[i], dir[names[i]]);
      if r.None? {
        ReadStops(c, dir, names, i + 1);
        return None;
      }
      rs := rs + [r.value];
      i := i + 1;
    }
    assert names[..i] == names;
    out := Some(rs);
  }

  /** A second item with an ordinal is an error. */
  method ReadChatItems(lines: seq<Item>) returns (items: Option<seq<Item>>)
    ensures items == DecodeItems(lines)
  {
    var seen: set<int> := {};
    var i := 0;
    while i < |lines|
      invariant 0 <= i <= |lines|
      invariant seen == set x | x in lines[..i] :: x.ordinal
      invariant DistinctOrdinals(lines[..i])
    {
      assert lines[..i + 1] == lines[..i] + [lines[i]];
      if lines[i].ordinal in seen {
        ghost var k :| 0 <= k < i && lines[k].ordinal == lines[i].ordinal;
        return None;
      }
      seen := seen + {lines[i].ordinal};
      i := i + 1;
    }
    assert lines[..i] == lines;
    items := Some(Sort(lines, ItemLess));
  }

  method ReadChat(id: string, d: ChatDir) returns (c: Option<Chat>)
    ensures c == DecodeChat(id, d)
  {
    if !Segment(id) || d.meta.None? || d.items.None? {
      return None;
    }
    var m := d.meta.value;
    if m.version != CHAT_VERSION || m.legacyPath.Some? || m.id != id {
      return None;
    }
    var items := ReadChatItems(d.items.value);
    if items.None? {
      return None;
    }
    if m.rawKey.None? {
      return Some(Chat(id, m.lastActivityAt, m.body, None, "", items.value));
    }
    var name := RawName(id, m.rawKey.value);
    if name.None? || name.value !in d.raw {
      return None;
    }
    c := Some(Chat(id, m.lastActivityAt, m.body, m.rawKey, d.raw[name.value], items.value));
  }

  method ReadChats(dir: Dir<ChatDir>, names: seq<string>) returns (out: Option<seq<Chat>>)
    ensures out == ReadAll(CHATS, dir, names)
  {
    var cs: seq<Chat> := [];
    var i := 0;
    while i < |names|
      invariant 0 <= i <= |names| && ReadAll(CHATS, dir, names[..i]) == Some(cs)
    {
      var c := None;
      if names[i] in dir {
        c := ReadChat(names[i], dir[names[i]]);
      }
      assert names[..i + 1][..i] == names[..i];
      assert names[i] in dir ==> c == CHATS.dec(names[i], dir[names[i]]);
      if c.None? {
        ReadStops(CHATS, dir, names, i + 1);
        return None;
      }
      cs := cs + [c.value];
      i := i + 1;
    }
    assert names[..i] == names;
    out := Some(cs);
  }

  method ReadRegistryFile(file: seq<Entry>) returns (entries: Option<seq<Entry>>)
    ensures entries == ReadRegistry(file)
  {
    var seen: set<string> := {};
    var i := 0;
    while i < |file|
      invariant 0 <= i <= |file|
      invariant seen == set e | e in file[..i] :: e.id
      invariant DistinctIds(file[..i]) && forall e :: e in file[..i] ==> !Blank(e.id)
    {
      assert file[..i + 1] == file[..i] + [file[i]] && file[i] in file;
      if Blank(file[i].id) {
        return None;
      }
      if file[i].id in seen {
        ghost var k :| 0 <= k < i && file[k].id == file[i].id;
        return None;
      }
      seen := seen + {file[i].id};
      i := i + 1;
    }
    assert file[..i] == file;
    entries := Some(Sort(file, EntryLess));
  }

  method WriteSnapshotContents(s: Snapshot) returns (t: Option<Tree>)
    ensures t == Write(s)
  {
    var templates := WriteDirectory(TEMPLATES, Sort(s.templates, TemplateLess));
    var records := WriteRecords(_ => false, Sort(s.records, RecordLess));
    var chats := WriteDirectory(CHATS, Sort(s.chats, ChatLess));
    var projects, devices := WriteRegistry(s.projects), WriteRegistry(s.devices);
    if templates.None? || records.None? || chats.None? || projects.None? || devices.None? {
      return None;
    }
    t := Some(Tree(templates.value, projects.value, devices.value, records.value,
                   if s.chats == [] then None else chats));
  }

  method ReadSnapshot(t: Tree, lfs: string -> bool, l: Listings) returns (s: Option<Snapshot>)
    ensures s == Read(t, lfs, l)
  {
    var templates := ReadDirectory(TEMPLATES, t.templates, l.templates);
    if templates.None? {
      return None;
    }
    var records := ReadRecords(lfs, t.records, l.records);
    if records.None? {
      return None;
    }
    var projects := ReadRegistryFile(t.projects);
    if projects.None? {
      return None;
    }
    var devices := ReadRegistryFile(t.devices);
    if devices.None? {
      return None;
    }
    var chats := Some([]);
    if t.chats.Some? {
      chats := ReadChats(t.chats.value, l.chats);
    }
    if chats.None? {
      return None;
    }
    s := Some(Snapshot(Sort(templates.value, TemplateLess), projects.value, devices.value,
                       Sort(records.value, RecordLess), Sort(chats.value, ChatLess)));
  }
}
