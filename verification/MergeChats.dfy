/**
 Merging the chats of a snapshot into the local store. A newer version is written over the stored
 one, but a field it leaves empty keeps its stored value and the time range only grows; so the
 newest version need not stand as it is, and two imports need not commute. When they do is stated
 exactly.
 */
module MergeChats {
  import opened Common

  datatype Item = Item(ordinal: nat, content: string)

  /** A stored chat. The key is the source and its session id, the body the device and path. */
  datatype ChatRow = ChatRow(
    key: string,
    parent: Option<string>,
    project: Option<string>,
    cwd: Option<string>,
    title: Option<string>,
    rawKey: Option<string>,
    body: string,
    startedAt: int,
    lastActivityAt: int,
    createdAt: int,
    updatedAt: int,
    deleted: bool,
    items: seq<Item>)

  /** A chat of a snapshot: never a deleted one. */
  datatype Chat = Chat(id: string, row: ChatRow, raw: string)

  type Chats = map<string, ChatRow>

  function Coalesce<T>(a: Option<T>, b: Option<T>): Option<T> { if a.Some? then a else b }

  function Min(a: int, b: int): int { if a <= b then a else b }

  function Max(a: int, b: int): int { if a >= b then a else b }

  /** The upsert of a session under its source identity. */
  function Absorb(e: ChatRow, c: ChatRow): ChatRow {
    ChatRow(e.key, Coalesce(c.parent, e.parent), Coalesce(c.project, e.project), Coalesce(c.cwd, e.cwd),
            Coalesce(c.title, e.title), Coalesce(c.rawKey, e.rawKey), c.body,
            Min(e.startedAt, c.startedAt), Max(e.lastActivityAt, c.lastActivityAt),
            e.createdAt, c.updatedAt, false, c.items)
  }

  predicate Skips(e: Option<ChatRow>, c: ChatRow) { e.Some? && c.updatedAt <= e.value.updatedAt }

  function MergeChat(e: Option<ChatRow>, c: ChatRow): ChatRow {
    if Skips(e, c) then e.value
    else if e.Some? then Absorb(e.value, c)
    else c.(deleted := false)
  }

  function MergeAll(db: Chats, cs: seq<Chat>): Chats {
    if cs == [] then db
    else
      var n := |cs| - 1;
      var before := MergeAll(db, cs[..n]);
      before[cs[n].id := MergeChat(At(before, cs[n].id), cs[n].row)]
  }

  function Skipped(db: Chats, cs: seq<Chat>): nat {
    if cs == [] then 0
    else
      var n := |cs| - 1;
      Skipped(db, cs[..n]) + if Skips(At(MergeAll(db, cs[..n]), cs[n].id), cs[n].row) then 1 else 0
  }

  // ----- what stands

  /** Of the version with the greatest updated_at the items, the device and the path stand, and the
      stored chat wins a tie; the creation time is that of the first version. */
  ghost predicate NewestItems(row: ChatRow, e: Option<ChatRow>, cs: seq<Chat>, id: string) {
    && (e.Some? ==> e.value.updatedAt <= row.updatedAt && e.value.createdAt == row.createdAt)
    && (e.Some? && e.value.updatedAt == row.updatedAt ==> row == e.value)
    && (forall c :: c in cs && c.id == id ==> c.row.updatedAt <= row.updatedAt)
    && ((e.Some? && row == e.value) ||
        exists c :: c in cs && c.id == id && c.row.updatedAt == row.updatedAt
                    && c.row.items == row.items && c.row.body == row.body)
  }

  lemma {:induction false} NewestItemsStand(db: Chats, cs: seq<Chat>, id: string)
    ensures id in MergeAll(db, cs) <==> id in db || exists c :: c in cs && c.id == id
    ensures id in MergeAll(db, cs) ==> NewestItems(MergeAll(db, cs)[id], At(db, id), cs, id)
  {
    if cs != [] {
      var n := |cs| - 1;
      NewestItemsStand(db, cs[..n], id);
      assert cs == cs[..n] + [cs[n]];
      assert forall c :: c in cs <==> c in cs[..n] || c == cs[n];
    }
  }

  /** The newest version has a say in every field: none it leaves empty is filled, and its times
      reach at least as far. */
  predicate Covers(c: ChatRow, e: ChatRow) {
    && (c.parent.Some? || e.parent.None?) && (c.project.Some? || e.project.None?)
    && (c.cwd.Some? || e.cwd.None?) && (c.title.Some? || e.title.None?) && (c.rawKey.Some? || e.rawKey.None?)
    && c.startedAt <= e.startedAt && c.lastActivityAt >= e.lastActivityAt
  }

  /** A newer version stands as it is, but for the creation time, exactly when it covers the stored
      one. */
  lemma {:induction false} NewestStandsExactly(e: ChatRow, c: ChatRow)
    requires e.key == c.key && !c.deleted && e.updatedAt < c.updatedAt
    ensures MergeChat(Some(e), c) == c.(createdAt := e.createdAt) <==> Covers(c, e)
  {}

  lemma {:induction false} SkippingChangesNothing(db: Chats, cs: seq<Chat>)
    requires forall c :: c in cs ==> Skips(At(db, c.id), c.row)
    ensures MergeAll(db, cs) == db && Skipped(db, cs) == |cs|
  {
    if cs != [] {
      var n := |cs| - 1;
      assert forall c :: c in cs[..n] ==> c in cs;
      SkippingChangesNothing(db, cs[..n]);
    }
  }

  /** A snapshot imported a second time, or a part of it, is skipped chat by chat. */
  lemma {:induction false} ReimportSkipsAll(db: Chats, cs: seq<Chat>, again: seq<Chat>)
    requires forall c :: c in again ==> c in cs
    ensures MergeAll(MergeAll(db, cs), again) == MergeAll(db, cs)
    ensures Skipped(MergeAll(db, cs), again) == |again|
  {
    forall c | c in again ensures Skips(At(MergeAll(db, cs), c.id), c.row) {
      NewestItemsStand(db, cs, c.id);
    }
    SkippingChangesNothing(MergeAll(db, cs), again);
  }

  // ----- two imports in either order

  /** Nothing of the older version a would remain under b that is not there without a. */
  predicate AddsNothing(e: Option<ChatRow>, a: ChatRow, b: ChatRow) {
    && OptionAdds(e, a.parent, b.parent, (r: ChatRow) => r.parent)
    && OptionAdds(e, a.project, b.project, (r: ChatRow) => r.project)
    && OptionAdds(e, a.cwd, b.cwd, (r: ChatRow) => r.cwd)
    && OptionAdds(e, a.title, b.title, (r: ChatRow) => r.title)
    && OptionAdds(e, a.rawKey, b.rawKey, (r: ChatRow) => r.rawKey)
    && a.startedAt >= (if e.Some? then Min(e.value.startedAt, b.startedAt) else b.startedAt)
    && a.lastActivityAt <= (if e.Some? then Max(e.value.lastActivityAt, b.lastActivityAt) else b.lastActivityAt)
    && (e.Some? || a.createdAt == b.createdAt)
  }

  predicate OptionAdds(e: Option<ChatRow>, a: Option<string>, b: Option<string>, field: ChatRow -> Option<string>) {
    b.Some? || a.None? || (e.Some? && field(e.value) == a)
  }

  lemma {:induction false} OlderAndNewer(e: Option<ChatRow>, a: ChatRow, b: ChatRow)
    requires a.key == b.key && (e.Some? ==> e.value.key == a.key) && a.updatedAt < b.updatedAt
    ensures MergeChat(Some(MergeChat(e, a)), b) == MergeChat(Some(MergeChat(e, b)), a) <==>
            Skips(e, a) || AddsNothing(e, a, b)
  {
    var ab := MergeChat(Some(MergeChat(e, a)), b);
    var ba := MergeChat(Some(MergeChat(e, b)), a);
    assert ba == MergeChat(e, b);
    if !Skips(e, a) {
      assert ab.parent == ba.parent <==> OptionAdds(e, a.parent, b.parent, (r: ChatRow) => r.parent);
      assert ab.project == ba.project <==> OptionAdds(e, a.project, b.project, (r: ChatRow) => r.project);
      assert ab.cwd == ba.cwd <==> OptionAdds(e, a.cwd, b.cwd, (r: ChatRow) => r.cwd);
      assert ab.title == ba.title <==> OptionAdds(e, a.title, b.title, (r: ChatRow) => r.title);
      assert ab.rawKey == ba.rawKey <==> OptionAdds(e, a.rawKey, b.rawKey, (r: ChatRow) => r.rawKey);
    }
  }

  /** Neither version shows in which order they came: the older adds nothing under the newer, and
      two of the same time come to one row. A version the store skips anyway does not matter. */
  predicate OrderHidden(e: Option<ChatRow>, a: ChatRow, b: ChatRow) {
    if a.updatedAt < b.updatedAt then Skips(e, a) || AddsNothing(e, a, b)
    else if b.updatedAt < a.updatedAt then Skips(e, b) || AddsNothing(e, b, a)
    else Skips(e, a) || MergeChat(e, a) == MergeChat(e, b)
  }

  /** Exactly when two versions of one chat, of whatever times, give the same row in either order. */
  lemma {:induction false} VersionsCommuteExactly(e: Option<ChatRow>, a: ChatRow, b: ChatRow)
    requires a.key == b.key && (e.Some? ==> e.value.key == a.key)
    ensures MergeChat(Some(MergeChat(e, a)), b) == MergeChat(Some(MergeChat(e, b)), a) <==> OrderHidden(e, a, b)
  {
    if a.updatedAt < b.updatedAt {
      OlderAndNewer(e, a, b);
    } else if b.updatedAt < a.updatedAt {
      OlderAndNewer(e, b, a);
    }
  }

  ghost predicate DistinctIds(cs: seq<Chat>) { forall i, k :: 0 <= i < k < |cs| ==> cs[i].id != cs[k].id }

  /** The version of a chat in a snapshot. */
  function Version(cs: seq<Chat>, id: string): Option<ChatRow> {
    if cs == [] then None
    else
      var n := |cs| - 1;
      if cs[n].id == id then Some(cs[n].row) else Version(cs[..n], id)
  }

  lemma {:induction false} VersionOf(cs: seq<Chat>, id: string)
    ensures Version(cs, id).Some? <==> exists c :: c in cs && c.id == id
  {
    if cs != [] {
      var n := |cs| - 1;
      VersionOf(cs[..n], id);
      assert cs == cs[..n] + [cs[n]];
    }
  }

  function MergeVersion(e: Option<ChatRow>, v: Option<ChatRow>): Option<ChatRow> {
    if v.None? then e else Some(MergeChat(e, v.value))
  }

  /** What an import does to one chat depends on its one version only. */
  lemma {:induction false} MergedOnce(db: Chats, cs: seq<Chat>, id: string)
    requires DistinctIds(cs)
    ensures At(MergeAll(db, cs), id) == MergeVersion(At(db, id), Version(cs, id))
  {
    if cs != [] {
      var n := |cs| - 1;
      MergedOnce(db, cs[..n], id);
      if cs[n].id == id {
        VersionOf(cs[..n], id);
      }
    }
  }

  lemma {:induction false} SameChats(x: Chats, y: Chats)
    ensures x == y <==> forall id :: At(x, id) == At(y, id)
  {
    if forall id :: At(x, id) == At(y, id) {
      forall id ensures id in x <==> id in y {
        assert At(x, id) == At(y, id);
      }
      forall id | id in x ensures x[id] == y[id] {
        assert At(x, id) == At(y, id);
      }
    }
  }

  /** The order of the two imports does not show in this chat. */
  ghost predicate HiddenIn(db: Chats, a: seq<Chat>, b: seq<Chat>, id: string) {
    var va, vb := Version(a, id), Version(b, id);
    va.Some? && vb.Some? ==> OrderHidden(At(db, id), va.value, vb.value)
  }

  /** A chat has one source identity wherever it occurs. */
  ghost predicate OneKey(db: Chats, a: seq<Chat>, b: seq<Chat>, id: string) {
    var va, vb := Version(a, id), Version(b, id);
    va.Some? && vb.Some? ==> va.value.key == vb.value.key && (id in db ==> db[id].key == va.value.key)
  }

  lemma {:induction false} ChatCommutes(e: Option<ChatRow>, va: Option<ChatRow>, vb: Option<ChatRow>)
    requires va.Some? && vb.Some? ==> va.value.key == vb.value.key && (e.Some? ==> e.value.key == va.value.key)
    ensures MergeVersion(MergeVersion(e, va), vb) == MergeVersion(MergeVersion(e, vb), va) <==>
            (va.Some? && vb.Some? ==> OrderHidden(e, va.value, vb.value))
  {
    if va.Some? && vb.Some? {
      VersionsCommuteExactly(e, va.value, vb.value);
    }
  }

  /** Two snapshots may be imported in either order exactly when it does not show in any chat that
      both have. */
  lemma {:induction false} ImportsCommuteExactly(db: Chats, a: seq<Chat>, b: seq<Chat>)
    requires DistinctIds(a) && DistinctIds(b) && forall id :: OneKey(db, a, b, id)
    ensures MergeAll(MergeAll(db, a), b) == MergeAll(MergeAll(db, b), a) <==> forall id :: HiddenIn(db, a, b, id)
  {
    var ab, ba := MergeAll(MergeAll(db, a), b), MergeAll(MergeAll(db, b), a);
    SameChats(ab, ba);
    forall id ensures At(ab, id) == At(ba, id) <==> HiddenIn(db, a, b, id) {
      assert OneKey(db, a, b, id);
      MergedOnce(db, a, id);
      MergedOnce(db, b, id);
      MergedOnce(MergeAll(db, a), b, id);
      MergedOnce(MergeAll(db, b), a, id);
      ChatCommutes(At(db, id), Version(a, id), Version(b, id));
    }
  }

  /** A title that the newer version has dropped comes back, in one order of the two imports only. */
  lemma {:induction false} DroppedTitleReturns()
    ensures exists a: ChatRow, b: ChatRow ::
      && a.key == b.key && a.updatedAt < b.updatedAt
      && MergeChat(Some(MergeChat(None, a)), b) != MergeChat(Some(MergeChat(None, b)), a)
      && MergeChat(Some(MergeChat(None, a)), b) != b
  {
    var a := ChatRow("codex/1", None, None, None, Some("draft"), None, "laptop", 0, 1, 0, 1, false, []);
    var b := a.(title := None, updatedAt := 2);
    assert MergeChat(Some(MergeChat(None, a)), b).title == Some("draft");
    assert MergeChat(Some(MergeChat(None, b)), a).title == None;
  }

  // ----- source identities

  /** A source identity belongs to one chat. */
  ghost predicate OneToOne(db: Chats) {
    forall i, k :: i in db && k in db && db[i].key == db[k].key ==> i == k
  }

  /** What the snapshot is rejected for before anything is written. */
  ghost predicate Identified(db: Chats, cs: seq<Chat>) {
    && (forall i, k :: 0 <= i < k < |cs| ==> cs[i].row.key != cs[k].row.key)
    && (forall c, id :: c in cs && id in db && db[id].key == c.row.key ==> id == c.id)
  }

  /** What is found only when the chat is reached: its id is taken by a chat from elsewhere, or by a
      record. */
  predicate Clashes(db: Chats, recordIds: set<string>, c: Chat) {
    if c.id in db then db[c.id].key != c.row.key && !Skips(At(db, c.id), c.row) else c.id in recordIds
  }

  /** No chat clashes when its turn comes. */
  predicate ClashFree(db: Chats, recordIds: set<string>, cs: seq<Chat>) {
    cs == [] ||
    var n := |cs| - 1; ClashFree(db, recordIds, cs[..n]) && !Clashes(MergeAll(db, cs[..n]), recordIds, cs[n])
  }

  /** Where the key of a merged chat comes from. */
  ghost predicate KeyFrom(m: Chats, db: Chats, cs: seq<Chat>, id: string) {
    id in m ==>
      if id in db then m[id].key == db[id].key
      else exists c :: c in cs && c.id == id && c.row.key == m[id].key
  }

  lemma {:induction false} KeyFromNext(m: Chats, db: Chats, recordIds: set<string>, cs: seq<Chat>, c: Chat, id: string)
    requires KeyFrom(m, db, cs, id) && (id in db ==> id in m) && !Clashes(m, recordIds, c)
    ensures KeyFrom(m[c.id := MergeChat(At(m, c.id), c.row)], db, cs + [c], id)
  {
    assert c in cs + [c];
    if id in m && id !in db {
      var x :| x in cs && x.id == id && x.row.key == m[id].key;
      assert x in cs + [c];
    }
  }

  lemma {:induction false} MergedKeys(db: Chats, recordIds: set<string>, cs: seq<Chat>, id: string)
    requires ClashFree(db, recordIds, cs)
    ensures KeyFrom(MergeAll(db, cs), db, cs, id) && (id in db ==> id in MergeAll(db, cs))
  {
    if cs != [] {
      var n := |cs| - 1;
      MergedKeys(db, recordIds, cs[..n], id);
      KeyFromNext(MergeAll(db, cs[..n]), db, recordIds, cs[..n], cs[n], id);
      assert cs == cs[..n] + [cs[n]];
    }
  }

  /** An import that goes through keeps source identities one-to-one. */
  lemma {:induction false} ImportKeepsOneToOne(db: Chats, recordIds: set<string>, cs: seq<Chat>)
    requires OneToOne(db) && Identified(db, cs) && ClashFree(db, recordIds, cs)
    ensures OneToOne(MergeAll(db, cs))
  {
    var m := MergeAll(db, cs);
    forall i, k | i in m && k in m && m[i].key == m[k].key ensures i == k {
      MergedKeys(db, recordIds, cs, i);
      MergedKeys(db, recordIds, cs, k);
    }
  }

  /** After the check at the start, the check made again at each chat never fails. */
  lemma {:induction false} SecondCheckPasses(db: Chats, recordIds: set<string>, cs: seq<Chat>, n: nat, id: string)
    requires n < |cs| && Identified(db, cs) && ClashFree(db, recordIds, cs[..n])
    requires id in MergeAll(db, cs[..n]) && MergeAll(db, cs[..n])[id].key == cs[n].row.key
    ensures id == cs[n].id
  {
    MergedKeys(db, recordIds, cs[..n], id);
    assert forall c :: c in cs[..n] ==> c.row.key != cs[n].row.key;
    assert cs[n] in cs;
  }
}
