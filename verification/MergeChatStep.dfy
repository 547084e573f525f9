/**
 The import of one chat over its two stores, the rows and the managed raw files, with its rollback.
 Any operation may fail, or be where the process dies. One on the rows then has no effect or all of
 it; the promotion of a raw file may leave the old file, none or the new one, whether it fails or the
 process dies in it. The rollback drops the errors of its own operations and goes on; a process that
 has died rolls nothing back.
 */
module MergeChatStep {
  import opened Common
  import opened MergeChats

  /** The managed raw directory of each chat: a file name and its bytes. */
  type Raw = map<string, map<string, string>>

  /** How much of an operation had happened when it failed or the process died in it. */
  datatype Extent = Untouched | Partial | Complete

  /** What comes of an operation. Beyond the end of a plan everything succeeds. */
  datatype Fate = Succeeds | Fails(extent: Extent) | Dies(extent: Extent)

  type Plan = seq<Fate>

  function Next(plan: Plan): Fate { if plan == [] then Succeeds else plan[0] }

  function After(plan: Plan): Plan { if plan == [] then [] else plan[1..] }

  ghost predicate NoFault(plan: Plan) { forall i :: 0 <= i < |plan| ==> plan[i] == Succeeds }

  datatype State = State(chats: Chats, raw: Raw, plan: Plan, ok: bool, dead: bool)

  function Reached(extent: Extent, s: State, part: State, t: State): State {
    match extent case Untouched => s case Partial => part case Complete => t
  }

  /** A step forward that happens at once or not at all, and not when it fails. */
  function Attempt(s: State, t: State): State {
    if !s.ok then s
    else match Next(s.plan)
      case Succeeds => t.(plan := After(s.plan))
      case Fails(_) => s.(ok := false, plan := After(s.plan))
      case Dies(extent) => (if extent == Complete then t else s).(ok := false, dead := true, plan := After(s.plan))
  }

  /** A step forward to t in two parts, of which a failure or a death may leave the first or both. */
  function AttemptParts(s: State, t: State, part: State): State {
    if !s.ok then s
    else match Next(s.plan)
      case Succeeds => t.(plan := After(s.plan))
      case Fails(extent) => Reached(extent, s, part, t).(ok := false, plan := After(s.plan))
      case Dies(extent) => Reached(extent, s, part, t).(ok := false, dead := true, plan := After(s.plan))
  }

  /** A step of the rollback, whose error is dropped. */
  function Undo(s: State, t: State): State {
    if s.dead then s
    else match Next(s.plan)
      case Succeeds => t.(plan := After(s.plan))
      case Fails(_) => s.(plan := After(s.plan))
      case Dies(extent) => (if extent == Complete then t else s).(dead := true, plan := After(s.plan))
  }

  function UndoParts(s: State, t: State, part: State): State {
    if s.dead then s
    else match Next(s.plan)
      case Succeeds => t.(plan := After(s.plan))
      case Fails(extent) => Reached(extent, s, part, t).(plan := After(s.plan))
      case Dies(extent) => Reached(extent, s, part, t).(dead := true, plan := After(s.plan))
  }

  /** No other chat has this source identity. */
  predicate IdentityFree(chats: Chats, c: Chat) {
    forall id :: id in chats && chats[id].key == c.row.key ==> id == c.id
  }

  predicate DistinctOrdinals(items: seq<Item>) {
    forall i, k :: 0 <= i < k < |items| ==> items[i].ordinal != items[k].ordinal
  }

  predicate RawEmpty(c: Chat) { c.row.rawKey.Some? && c.raw == "" }

  // ----- the rollback

  /** The session as the rollback writes it, which has no parent: over what is left of it, if it
      could not be deleted first. */
  function Rewritten(left: Option<ChatRow>, e: ChatRow): ChatRow {
    if left.Some? then Absorb(left.value, e.(parent := None)).(items := left.value.items, deleted := e.deleted)
    else e.(parent := None, items := [])
  }

  function DropSession(s: State, id: string): State { Undo(s, s.(chats := s.chats - {id})) }

  function RewriteSession(s: State, e: ChatRow, id: string): State {
    Undo(s, s.(chats := s.chats[id := Rewritten(At(s.chats, id), e)]))
  }

  /** Items cannot be written for a session that is not there. */
  function RewriteItems(s: State, e: ChatRow, id: string): State {
    Undo(s, if id in s.chats then s.(chats := s.chats[id := s.chats[id].(items := e.items)]) else s)
  }

  function DropRaw(s: State, id: string): State { Undo(s, s.(raw := s.raw - {id})) }

  /** The saved copy of the raw file is promoted: the directory is moved aside first. */
  function RewriteRaw(s: State, id: string, file: map<string, string>): State {
    UndoParts(s, s.(raw := s.raw[id := file]), s.(raw := s.raw - {id}))
  }

  /** captureSnapshotChatRollback and restore. */
  function Restore(s: State, before: State, id: string): State {
    if id in before.chats then
      var e := before.chats[id];
      var t := RewriteItems(RewriteSession(DropSession(s, id), e, id), e, id);
      if e.rawKey.Some? && id in before.raw && e.rawKey.value in before.raw[id]
      then RewriteRaw(t, id, map[e.rawKey.value := before.raw[id][e.rawKey.value]])
      else DropRaw(t, id)
    else DropSession(DropRaw(s, id), id)
  }

  function GiveUp(s: State, before: State, id: string): State { if s.dead then s else Restore(s, before, id) }

  // ----- the import

  /** The session as the upsert leaves it: its items are as they were. */
  function Upserted(e: Option<ChatRow>, c: ChatRow): ChatRow {
    MergeChat(e, c).(items := if e.Some? then e.value.items else [])
  }

  function UpsertSession(s: State, c: Chat): State {
    s.(chats := s.chats[c.id := Upserted(At(s.chats, c.id), c.row)])
  }

  /** Items with one ordinal twice are refused. */
  function ReplaceItems(s: State, c: Chat): State
    requires c.id in s.chats
  {
    if DistinctOrdinals(c.row.items)
    then Attempt(s, s.(chats := s.chats[c.id := s.chats[c.id].(items := c.row.items)]))
    else Attempt(s, s).(ok := false)
  }

  function PromoteRaw(s: State, c: Chat): State {
    if c.row.rawKey.Some?
    then AttemptParts(s, s.(raw := s.raw[c.id := map[c.row.rawKey.value := c.raw]]), s.(raw := s.raw - {c.id}))
    else s
  }

  /** After the upsert: the items, then the raw file; a failure of either is rolled back. */
  function Finish(upserted: State, before: State, c: Chat): State
    requires c.id in upserted.chats
  {
    var withItems := ReplaceItems(upserted, c);
    if !withItems.ok then GiveUp(withItems, before, c.id)
    else
      var promoted := PromoteRaw(withItems, c);
      if !promoted.ok then GiveUp(promoted, before, c.id) else promoted
  }

  /** From the upsert on. */
  function Write(s: State, recordIds: set<string>, c: Chat): State {
    if !s.ok then s
    else if Clashes(s.chats, recordIds, c) then s.(ok := false)
    else
      var upserted := Attempt(s, UpsertSession(s, c));
      if !upserted.ok then upserted else Finish(upserted, s, c)
  }

  function ImportChat(s: State, recordIds: set<string>, c: Chat): State {
    var found := Attempt(s, s);
    if !found.ok then found
    else if !IdentityFree(s.chats, c) then found.(ok := false)
    else
      var captured := Attempt(found, found);
      if !captured.ok || Skips(At(s.chats, c.id), c.row) then captured
      else if RawEmpty(c) then captured.(ok := false)
      else Write(if c.row.rawKey.Some? then Attempt(captured, captured) else captured, recordIds, c)
  }

  // ----- what a success and a failure leave

  /** Each chat's raw directory holds the file its row names, and nothing else. */
  ghost predicate RawFits(chats: Chats, raw: Raw) {
    forall id :: id in chats && id in raw ==> chats[id].rawKey.Some? && raw[id].Keys == {chats[id].rawKey.value}
  }

  /** What a successful import does to the raw files: those of an applied chat are the snapshot's. */
  function MergeRaw(chats: Chats, raw: Raw, c: Chat): Raw {
    if Skips(At(chats, c.id), c.row) || c.row.rawKey.None? then raw
    else raw[c.id := map[c.row.rawKey.value := c.raw]]
  }

  ghost predicate Elsewhere<V>(now: map<string, V>, was: map<string, V>, id: string) {
    forall x :: x != id ==> At(now, x) == At(was, x)
  }

  /** What the rollback may leave of a row x whose stored version is e, when some of its operations
      fail or the process dies in it. */
  ghost function Leftovers(e: Option<ChatRow>, x: ChatRow): set<Option<ChatRow>> {
    if e.None? then {None, Some(x)}
    else
      var rows := {None, Some(x), Some(Rewritten(None, e.value)), Some(Rewritten(Some(x), e.value))};
      rows + set y | y in rows && y.Some? :: Some(y.value.(items := e.value.items))
  }

  /** What a failed import may leave of a row: as it was, upserted with its old items, merged, or
      what the rollback leaves of one of those. */
  ghost predicate RowLeft(now: Option<ChatRow>, e: Option<ChatRow>, c: ChatRow) {
    || now == e
    || now in Leftovers(e, Upserted(e, c))
    || now in Leftovers(e, MergeChat(e, c))
  }

  ghost predicate Left(now: Chats, was: Chats, c: Chat) {
    Elsewhere(now, was, c.id) && RowLeft(At(now, c.id), At(was, c.id), c.row)
  }

  /** The copy that the rollback has of the stored chat's raw file. */
  function Saved(e: Option<ChatRow>, was: Option<map<string, string>>): Option<map<string, string>> {
    if e.Some? && e.value.rawKey.Some? && was.Some? && e.value.rawKey.value in was.value
    then Some(map[e.value.rawKey.value := was.value[e.value.rawKey.value]]) else None
  }

  function NewRaw(c: Chat): Option<map<string, string>> {
    if c.row.rawKey.Some? then Some(map[c.row.rawKey.value := c.raw]) else None
  }

  /** What a failed import may leave of the raw files: no other chat's is touched, and this one's are as
      they were, missing, the snapshot's or the saved ones. */
  ghost predicate RawLeft(now: Raw, was: Raw, e: Option<ChatRow>, c: Chat) {
    && Elsewhere(now, was, c.id)
    && At(now, c.id) in {At(was, c.id), None, NewRaw(c), Saved(e, At(was, c.id))}
  }

  lemma {:induction false} DropSessionLeaves(s: State, id: string)
    ensures var t := DropSession(s, id);
      && Elsewhere(t.chats, s.chats, id) && t.raw == s.raw && t.ok == s.ok
      && (At(t.chats, id) == At(s.chats, id) || At(t.chats, id) == None)
  {}

  lemma {:induction false} RewriteSessionLeaves(s: State, e: ChatRow, id: string)
    ensures var t := RewriteSession(s, e, id);
      && Elsewhere(t.chats, s.chats, id) && t.raw == s.raw && t.ok == s.ok
      && (At(t.chats, id) == At(s.chats, id) || At(t.chats, id) == Some(Rewritten(At(s.chats, id), e)))
  {}

  ghost predicate Reitemed(now: Option<ChatRow>, was: Option<ChatRow>, e: ChatRow) {
    now == was || (was.Some? && now == Some(was.value.(items := e.items)))
  }

  lemma {:induction false} RewriteItemsLeaves(s: State, e: ChatRow, id: string)
    ensures var t := RewriteItems(s, e, id);
      && Elsewhere(t.chats, s.chats, id) && t.raw == s.raw && t.ok == s.ok
      && Reitemed(At(t.chats, id), At(s.chats, id), e)
  {}

  lemma {:induction false} ThreeSteps(
    e: ChatRow, x: ChatRow, y1: Option<ChatRow>, y2: Option<ChatRow>, y3: Option<ChatRow>)
    requires y1 in {None, Some(x)} && y2 in {y1, Some(Rewritten(y1, e))} && Reitemed(y3, y2, e)
    ensures y3 in Leftovers(Some(e), x)
  {
    var rows := {None, Some(x), Some(Rewritten(None, e)), Some(Rewritten(Some(x), e))};
    assert y2 in rows;
  }

  /** The session written before is deleted or not, rewritten or not, and given its items or not. */
  lemma {:induction false} RestoreRowsLeaves(s: State, e: ChatRow, id: string, x: ChatRow)
    requires At(s.chats, id) == Some(x)
    ensures var t := RewriteItems(RewriteSession(DropSession(s, id), e, id), e, id);
      Elsewhere(t.chats, s.chats, id) && t.raw == s.raw && t.ok == s.ok && At(t.chats, id) in Leftovers(Some(e), x)
  {
    var s1 := DropSession(s, id);
    var s2 := RewriteSession(s1, e, id);
    var t := RewriteItems(s2, e, id);
    DropSessionLeaves(s, id);
    RewriteSessionLeaves(s1, e, id);
    RewriteItemsLeaves(s2, e, id);
    ThreeSteps(e, x, At(s1.chats, id), At(s2.chats, id), At(t.chats, id));
  }

  lemma {:induction false} DropRawLeaves(s: State, id: string)
    ensures var t := DropRaw(s, id);
      t.chats == s.chats && t.ok == s.ok && Elsewhere(t.raw, s.raw, id) && At(t.raw, id) in {At(s.raw, id), None}
  {}

  lemma {:induction false} RewriteRawLeaves(s: State, id: string, file: map<string, string>)
    ensures var t := RewriteRaw(s, id, file);
      && t.chats == s.chats && t.ok == s.ok && Elsewhere(t.raw, s.raw, id)
      && At(t.raw, id) in {At(s.raw, id), None, Some(file)}
  {}

  lemma {:induction false} RestoreLeaves(s: State, before: State, id: string, x: ChatRow)
    requires At(s.chats, id) == Some(x) && !s.ok
    ensures var t := Restore(s, before, id);
      && Elsewhere(t.chats, s.chats, id) && Elsewhere(t.raw, s.raw, id) && !t.ok
      && At(t.chats, id) in Leftovers(At(before.chats, id), x)
      && At(t.raw, id) in {At(s.raw, id), None, Saved(At(before.chats, id), At(before.raw, id))}
  {
    if id in before.chats {
      var e := before.chats[id];
      RestoreRowsLeaves(s, e, id, x);
      var t := RewriteItems(RewriteSession(DropSession(s, id), e, id), e, id);
      if e.rawKey.Some? && id in before.raw && e.rawKey.value in before.raw[id] {
        RewriteRawLeaves(t, id, map[e.rawKey.value := before.raw[id][e.rawKey.value]]);
      } else {
        DropRawLeaves(t, id);
      }
    } else {
      DropRawLeaves(s, id);
      assert At(DropSession(DropRaw(s, id), id).chats, id) in {None, Some(x)};
    }
  }

  lemma {:induction false} GiveUpLeaves(s: State, before: State, id: string, x: ChatRow)
    requires At(s.chats, id) == Some(x) && !s.ok
    ensures var t := GiveUp(s, before, id);
      && Elsewhere(t.chats, s.chats, id) && Elsewhere(t.raw, s.raw, id) && !t.ok
      && At(t.chats, id) in Leftovers(At(before.chats, id), x)
      && At(t.raw, id) in {At(s.raw, id), None, Saved(At(before.chats, id), At(before.raw, id))}
  {
    if !s.dead {
      RestoreLeaves(s, before, id, x);
    }
  }

  /** What comes of the items: nothing, or all of them. */
  lemma {:induction false} ItemsLeave(s: State, c: Chat)
    requires c.id in s.chats && s.ok
    ensures var t, written := ReplaceItems(s, c), s.chats[c.id := s.chats[c.id].(items := c.row.items)];
      && t.raw == s.raw
      && (t.ok ==> t.chats == written && DistinctOrdinals(c.row.items) && t.dead == s.dead)
      && (!t.ok ==> t.chats == s.chats || t.chats == written)
  {}

  lemma {:induction false} PromoteLeaves(s: State, c: Chat)
    requires s.ok
    ensures var t := PromoteRaw(s, c);
      && t.chats == s.chats && Elsewhere(t.raw, s.raw, c.id) && At(t.raw, c.id) in {At(s.raw, c.id), None, NewRaw(c)}
      && (t.ok ==> t.raw == if c.row.rawKey.Some? then s.raw[c.id := map[c.row.rawKey.value := c.raw]] else s.raw)
  {}

  lemma {:induction false} FinishLeaves(upserted: State, before: State, c: Chat)
    requires upserted.ok && !Skips(At(before.chats, c.id), c.row)
    requires upserted.chats == UpsertSession(before, c).chats && upserted.raw == before.raw
    ensures var t := Finish(upserted, before, c);
      && (t.ok ==>
            && t.chats == before.chats[c.id := MergeChat(At(before.chats, c.id), c.row)]
            && t.raw == MergeRaw(before.chats, before.raw, c))
      && (!t.ok ==> Left(t.chats, before.chats, c) && RawLeft(t.raw, before.raw, At(before.chats, c.id), c))
  {
    var e := At(before.chats, c.id);
    var withItems := ReplaceItems(upserted, c);
    ItemsLeave(upserted, c);
    assert MergeChat(e, c.row) == Upserted(e, c.row).(items := c.row.items);
    if !withItems.ok {
      GiveUpLeaves(withItems, before, c.id, withItems.chats[c.id]);
    } else {
      var promoted := PromoteRaw(withItems, c);
      PromoteLeaves(withItems, c);
      if !promoted.ok {
        GiveUpLeaves(promoted, before, c.id, promoted.chats[c.id]);
      }
    }
  }

  /** What writing a chat comes to. */
  lemma {:induction false} WriteOutcome(s: State, recordIds: set<string>, c: Chat)
    requires !Skips(At(s.chats, c.id), c.row)
    ensures var t := Write(s, recordIds, c);
      && (t.ok ==>
            && s.ok && !Clashes(s.chats, recordIds, c)
            && t.chats == s.chats[c.id := MergeChat(At(s.chats, c.id), c.row)]
            && t.raw == MergeRaw(s.chats, s.raw, c))
      && (!t.ok ==> Left(t.chats, s.chats, c) && RawLeft(t.raw, s.raw, At(s.chats, c.id), c))
  {
    var upserted := Attempt(s, UpsertSession(s, c));
    if s.ok && !Clashes(s.chats, recordIds, c) && upserted.ok {
      FinishLeaves(upserted, s, c);
    }
  }

  /** The state in which writing begins, if it does. */
  function Begin(s: State, c: Chat): State {
    var found := Attempt(s, s);
    var captured := Attempt(found, found);
    if c.row.rawKey.Some? then Attempt(captured, captured) else captured
  }

  /** Whether the import gets as far as writing, if nothing goes wrong. */
  predicate Begins(s: State, c: Chat) {
    IdentityFree(s.chats, c) && !Skips(At(s.chats, c.id), c.row) && !RawEmpty(c)
  }

  /** A step that only looks or stages a copy, and the end of a step that failed before. */
  lemma {:induction false} LookingOnly(s: State)
    ensures var t := Attempt(s, s); t.chats == s.chats && t.raw == s.raw && (t.ok ==> s.ok && t.dead == s.dead)
    ensures !s.ok ==> forall t :: Attempt(s, t) == s
  {}

  lemma {:induction false} ImportIsWrite(s: State, recordIds: set<string>, c: Chat)
    requires s.ok
    ensures var t := ImportChat(s, recordIds, c);
      if Begins(s, c)
      then t == Write(Begin(s, c), recordIds, c) && Begin(s, c).chats == s.chats && Begin(s, c).raw == s.raw
      else
        && t.chats == s.chats && t.raw == s.raw
        && (t.ok ==> IdentityFree(s.chats, c) && Skips(At(s.chats, c.id), c.row))
  {
    var found := Attempt(s, s);
    var captured := Attempt(found, found);
    LookingOnly(s);
    LookingOnly(found);
    LookingOnly(captured);
  }

  /** A success is the merge. */
  lemma {:induction false} SuccessMerges(s: State, recordIds: set<string>, c: Chat)
    requires s.ok
    ensures var t := ImportChat(s, recordIds, c);
      t.ok ==>
        && t.chats == s.chats[c.id := MergeChat(At(s.chats, c.id), c.row)]
        && t.raw == MergeRaw(s.chats, s.raw, c)
        && IdentityFree(s.chats, c) && !Clashes(s.chats, recordIds, c)
  {
    ImportIsWrite(s, recordIds, c);
    if Begins(s, c) {
      WriteOutcome(Begin(s, c), recordIds, c);
    }
  }

  /** Whatever fails and wherever the process dies, no other chat and no other raw file is touched,
      and of this chat's row one of the listed versions is left. */
  lemma {:induction false} FailureLeaves(s: State, recordIds: set<string>, c: Chat)
    requires s.ok
    ensures var t := ImportChat(s, recordIds, c);
      !t.ok ==> Left(t.chats, s.chats, c) && RawLeft(t.raw, s.raw, At(s.chats, c.id), c)
  {
    ImportIsWrite(s, recordIds, c);
    if Begins(s, c) {
      WriteOutcome(Begin(s, c), recordIds, c);
    }
  }

  // ----- one failure only

  /** At most one operation fails, and the process does not die. */
  ghost predicate OneFailure(plan: Plan) {
    && (forall i :: 0 <= i < |plan| ==> !plan[i].Dies?)
    && forall i, k :: 0 <= i < k < |plan| ==> plan[i] == Succeeds || plan[k] == Succeeds
  }

  /** At most one thing goes wrong, counting items that are refused. */
  ghost predicate OneThingWrong(plan: Plan, c: Chat) {
    NoFault(plan) || (OneFailure(plan) && DistinctOrdinals(c.row.items))
  }

  lemma {:induction false} PlanGoesOn(plan: Plan)
    ensures NoFault(plan) ==> Next(plan) == Succeeds && NoFault(After(plan))
    ensures OneFailure(plan) ==> !Next(plan).Dies? && OneFailure(After(plan))
    ensures OneFailure(plan) && Next(plan).Fails? ==> NoFault(After(plan))
  {}

  /** What a failed import leaves when the rollback is not disturbed: the chats as they were or, when
      the chat was there, without its parent; and the raw files as they were, but for a directory that
      had no chat. */
  ghost predicate RolledBack(t: State, s: State, id: string) {
    && !t.dead
    && (t.chats == s.chats || (id in s.chats && t.chats == s.chats[id := s.chats[id].(parent := None)]))
    && (RawFits(s.chats, s.raw) ==> t.raw == s.raw || (id !in s.chats && t.raw == s.raw - {id}))
  }

  lemma {:induction false} QuietUndo(s: State, t: State, part: State)
    requires !s.dead && NoFault(s.plan)
    ensures UndoParts(s, t, part) == Undo(s, t) == t.(plan := After(s.plan)) && NoFault(After(s.plan))
  {
    PlanGoesOn(s.plan);
  }

  lemma {:induction false} QuietRewrite(s: State, e: ChatRow, id: string)
    requires !s.dead && NoFault(s.plan)
    ensures var t := RewriteItems(RewriteSession(DropSession(s, id), e, id), e, id);
      && t.chats == s.chats[id := e.(parent := None)] && t.raw == s.raw && !t.dead && NoFault(t.plan)
  {
    var s1 := DropSession(s, id);
    QuietUndo(s, s.(chats := s.chats - {id}), s);
    QuietUndo(s1, s1.(chats := s1.chats[id := Rewritten(None, e)]), s1);
    var s2 := RewriteSession(s1, e, id);
    assert s2.chats[id].(items := e.items) == e.(parent := None);
    QuietUndo(s2, s2.(chats := s2.chats[id := e.(parent := None)]), s2);
    var t := RewriteItems(s2, e, id);
    assert t.chats == s.chats[id := e.(parent := None)];
  }

  lemma {:induction false} SameButOne<V>(now: map<string, V>, was: map<string, V>, id: string, v: Option<V>)
    requires Elsewhere(now, was, id)
    ensures now - {id} == was - {id}
    ensures v.Some? ==> now[id := v.value] == was[id := v.value]
  {
    forall x | x != id ensures x in now <==> x in was {
      assert At(now, x) == At(was, x);
    }
    forall x | x != id && x in was ensures now[x] == was[x] {
      assert At(now, x) == At(was, x);
    }
  }

  lemma {:induction false} RestoreUndoes(s: State, before: State, id: string)
    requires !s.dead && NoFault(s.plan)
    requires Elsewhere(s.raw, before.raw, id) && Elsewhere(s.chats, before.chats, id)
    ensures RolledBack(Restore(s, before, id), before, id)
  {
    if id in before.chats {
      var e := before.chats[id];
      SameButOne(s.chats, before.chats, id, Some(e.(parent := None)));
      QuietRewrite(s, e, id);
      var t := RewriteItems(RewriteSession(DropSession(s, id), e, id), e, id);
      RestoreRaw(t, before, e, id);
    } else {
      SameButOne(s.chats, before.chats, id, None);
      SameButOne(s.raw, before.raw, id, None);
      QuietUndo(s, s.(raw := s.raw - {id}), s);
      var s1 := DropRaw(s, id);
      QuietUndo(s1, s1.(chats := s1.chats - {id}), s1);
      assert before.chats - {id} == before.chats;
    }
  }

  lemma {:induction false} RestoreRaw(s: State, before: State, e: ChatRow, id: string)
    requires !s.dead && NoFault(s.plan) && Elsewhere(s.raw, before.raw, id) && At(before.chats, id) == Some(e)
    ensures var t :=
        if e.rawKey.Some? && id in before.raw && e.rawKey.value in before.raw[id]
        then RewriteRaw(s, id, map[e.rawKey.value := before.raw[id][e.rawKey.value]])
        else DropRaw(s, id);
      !t.dead && t.chats == s.chats && (RawFits(before.chats, before.raw) ==> t.raw == before.raw)
  {
    PlanGoesOn(s.plan);
    if RawFits(before.chats, before.raw) {
      if id in before.raw {
        SameButOne(s.raw, before.raw, id, Some(before.raw[id]));
        assert before.raw[id] == map[e.rawKey.value := before.raw[id][e.rawKey.value]];
        assert before.raw[id := before.raw[id]] == before.raw;
      } else {
        SameButOne(s.raw, before.raw, id, None);
        assert before.raw - {id} == before.raw;
      }
    }
  }

  /** A step on the way: it succeeds with at most one failure to come, or fails with none. */
  lemma {:induction false} StepOnTheWay(s: State, t: State, part: State)
    requires s.ok && !s.dead && OneFailure(s.plan) && t.ok && !t.dead
    requires part.chats == s.chats && !part.dead
    ensures var u := AttemptParts(s, t, part);
      && !u.dead
      && (u.ok ==> u.chats == t.chats && u.raw == t.raw && OneFailure(u.plan))
      && (!u.ok ==> u.chats in {s.chats, t.chats} && u.raw in {s.raw, part.raw, t.raw} && NoFault(u.plan))
    ensures var u := Attempt(s, t);
      && !u.dead
      && (u.ok ==> u.chats == t.chats && u.raw == t.raw && OneFailure(u.plan))
      && (!u.ok ==> u.chats == s.chats && u.raw == s.raw && NoFault(u.plan))
  {
    PlanGoesOn(s.plan);
  }

  lemma {:induction false} NoFaultIsOne(plan: Plan)
    requires NoFault(plan)
    ensures OneFailure(plan)
  {}

  lemma {:induction false} ItemsOnTheWay(s: State, c: Chat)
    requires c.id in s.chats && s.ok && !s.dead && OneThingWrong(s.plan, c)
    ensures var t := ReplaceItems(s, c);
      && !t.dead && t.raw == s.raw && Elsewhere(t.chats, s.chats, c.id)
      && (if t.ok then OneFailure(t.plan) else NoFault(t.plan))
  {
    if NoFault(s.plan) {
      NoFaultIsOne(s.plan);
    }
    PlanGoesOn(s.plan);
    StepOnTheWay(s, s, s);
    StepOnTheWay(s, s.(chats := s.chats[c.id := s.chats[c.id].(items := c.row.items)]), s);
  }

  lemma {:induction false} FinishRollsBack(upserted: State, before: State, c: Chat)
    requires upserted.ok && !upserted.dead && OneThingWrong(upserted.plan, c)
    requires upserted.chats == UpsertSession(before, c).chats && upserted.raw == before.raw
    ensures var t := Finish(upserted, before, c); !t.ok ==> RolledBack(t, before, c.id)
  {
    var withItems := ReplaceItems(upserted, c);
    ItemsOnTheWay(upserted, c);
    if !withItems.ok {
      RestoreUndoes(withItems, before, c.id);
    } else {
      if c.row.rawKey.Some? {
        var moved := withItems.(raw := withItems.raw - {c.id});
        StepOnTheWay(withItems, withItems.(raw := withItems.raw[c.id := map[c.row.rawKey.value := c.raw]]), moved);
      }
      var promoted := PromoteRaw(withItems, c);
      if !promoted.ok {
        RestoreUndoes(promoted, before, c.id);
      }
    }
  }

  lemma {:induction false} BeginOnTheWay(s: State, c: Chat)
    requires s.ok && !s.dead && OneThingWrong(s.plan, c)
    ensures var t := Begin(s, c);
      !t.dead && t.chats == s.chats && t.raw == s.raw && (t.ok ==> OneThingWrong(t.plan, c))
  {
    PlanGoesOn(s.plan);
    PlanGoesOn(After(s.plan));
    PlanGoesOn(After(After(s.plan)));
  }

  lemma {:induction false} WriteRollsBack(s: State, recordIds: set<string>, c: Chat)
    requires !s.dead && (s.ok ==> OneThingWrong(s.plan, c))
    ensures var t := Write(s, recordIds, c); !t.ok ==> RolledBack(t, s, c.id)
  {
    var upserted := Attempt(s, UpsertSession(s, c));
    if s.ok && !Clashes(s.chats, recordIds, c) {
      PlanGoesOn(s.plan);
      if upserted.ok {
        FinishRollsBack(upserted, s, c);
      }
    }
  }

  /** When only one thing goes wrong the rollback gives back everything but the parent. */
  lemma {:induction false} OneFailureRollsBack(s: State, recordIds: set<string>, c: Chat)
    requires s.ok && !s.dead && OneThingWrong(s.plan, c)
    ensures var t := ImportChat(s, recordIds, c); !t.ok ==> RolledBack(t, s, c.id)
  {
    ImportIsWrite(s, recordIds, c);
    BeginOnTheWay(s, c);
    if Begins(s, c) {
      WriteRollsBack(Begin(s, c), recordIds, c);
    } else {
      NotBegun(s, recordIds, c);
    }
  }

  lemma {:induction false} NotBegun(s: State, recordIds: set<string>, c: Chat)
    requires s.ok && !s.dead && OneThingWrong(s.plan, c) && !Begins(s, c)
    ensures !ImportChat(s, recordIds, c).dead
  {
    PlanGoesOn(s.plan);
    PlanGoesOn(After(s.plan));
  }

  /** The stored chat has a parent, and the import gets as far as writing over it. */
  predicate Exposed(s: State, c: Chat) {
    Begins(s, c) && c.id in s.chats && s.chats[c.id].parent.Some? && s.chats[c.id].key == c.row.key
  }

  /** Under this plan the import, if it fails, leaves the chats as they were. */
  ghost predicate HarmlessUnder(s: State, recordIds: set<string>, c: Chat, plan: Plan) {
    var t := ImportChat(s.(plan := plan), recordIds, c); !t.ok ==> t.chats == s.chats
  }

  /** Failing operations before the upsert of the session, and the fates from there on. */
  function FromUpsert(c: Chat, fates: Plan): Plan {
    (if c.row.rawKey.Some? then [Succeeds, Succeeds, Succeeds] else [Succeeds, Succeeds]) + fates
  }

  lemma {:induction false} BeginsUndisturbed(s: State, recordIds: set<string>, c: Chat, fates: Plan)
    requires s.ok && Begins(s, c)
    ensures ImportChat(s.(plan := FromUpsert(c, fates)), recordIds, c) == Write(s.(plan := fates), recordIds, c)
  {
    var s0 := s.(plan := FromUpsert(c, fates));
    ImportIsWrite(s0, recordIds, c);
    var plan := FromUpsert(c, fates);
    assert plan[1..][1..] == if c.row.rawKey.Some? then [Succeeds] + fates else fates;
    assert [Succeeds][1..] + fates == fates && ([Succeeds] + fates)[1..] == fates;
    assert Begin(s0, c) == s.(plan := fates);
  }

  /** The items fail, by a failure or because an ordinal comes twice, and nothing else does. */
  lemma {:induction false} FaultInItems(s: State, recordIds: set<string>, c: Chat, fate: Fate)
    requires s.ok && !s.dead && s.plan == [Succeeds, fate] && c.id in s.chats && !Clashes(s.chats, recordIds, c)
    requires fate.Fails? || (fate == Succeeds && !DistinctOrdinals(c.row.items))
    ensures var t := Write(s, recordIds, c);
      !t.ok && t.chats == s.chats[c.id := s.chats[c.id].(parent := None)]
  {
    var e := s.chats[c.id];
    assert s.plan[1..] == [fate];
    var upserted := Attempt(s, UpsertSession(s, c));
    assert upserted.ok && upserted.plan == [fate];
    var failed := ReplaceItems(upserted, c);
    assert !failed.ok && !failed.dead && failed.plan == [] && failed.chats == upserted.chats;
    QuietRewrite(failed, e, c.id);
    var t := RewriteItems(RewriteSession(DropSession(failed, c.id), e, c.id), e, c.id);
    DropRawLeaves(t, c.id);
    if e.rawKey.Some? && c.id in s.raw && e.rawKey.value in s.raw[c.id] {
      RewriteRawLeaves(t, c.id, map[e.rawKey.value := s.raw[c.id][e.rawKey.value]]);
    }
  }

  lemma {:induction false} ExposedLosesParent(s: State, recordIds: set<string>, c: Chat)
    requires s.ok && !s.dead && Exposed(s, c)
    ensures exists plan :: OneThingWrong(plan, c) && !HarmlessUnder(s, recordIds, c, plan)
  {
    var fate := if DistinctOrdinals(c.row.items) then Fails(Untouched) else Succeeds;
    var plan := FromUpsert(c, [Succeeds, fate]);
    BeginsUndisturbed(s, recordIds, c, [Succeeds, fate]);
    FaultInItems(s.(plan := [Succeeds, fate]), recordIds, c, fate);
    assert s.chats[c.id := s.chats[c.id].(parent := None)][c.id] != s.chats[c.id];
    assert OneThingWrong(plan, c) && !HarmlessUnder(s, recordIds, c, plan);
  }

  lemma {:induction false} UnexposedUnharmed(s: State, recordIds: set<string>, c: Chat)
    requires s.ok && !s.dead && !Exposed(s, c) && OneThingWrong(s.plan, c)
    ensures var t := ImportChat(s, recordIds, c); !t.ok ==> t.chats == s.chats
  {
    OneFailureRollsBack(s, recordIds, c);
    ImportIsWrite(s, recordIds, c);
    if c.id in s.chats && s.chats[c.id].key != c.row.key && Begins(s, c) {
      assert Clashes(s.chats, recordIds, c);
    } else if c.id in s.chats && s.chats[c.id].parent.None? {
      assert s.chats[c.id := s.chats[c.id].(parent := None)] == s.chats;
    }
  }

  /** When one thing goes wrong a failing import is sure to leave the chats as they were exactly when
      the stored chat is not exposed: otherwise a failure after the upsert takes its parent away. */
  lemma {:induction false} FailureHarmlessExactly(s: State, recordIds: set<string>, c: Chat)
    requires s.ok && !s.dead
    ensures (forall plan :: OneThingWrong(plan, c) ==> HarmlessUnder(s, recordIds, c, plan)) <==> !Exposed(s, c)
  {
    if Exposed(s, c) {
      ExposedLosesParent(s, recordIds, c);
    } else {
      forall plan | OneThingWrong(plan, c) ensures HarmlessUnder(s, recordIds, c, plan) {
        UnexposedUnharmed(s.(plan := plan), recordIds, c);
      }
    }
  }

  /** Whatever goes wrong, a failing import is sure to leave the chats as they were exactly when it
      never gets to write: the process may die once the session is written. */
  lemma {:induction false} DeathHarmlessExactly(s: State, recordIds: set<string>, c: Chat)
    requires s.ok && !s.dead
    ensures (forall plan :: HarmlessUnder(s, recordIds, c, plan)) <==>
            !(Begins(s, c) && !Clashes(s.chats, recordIds, c))
  {
    if Begins(s, c) && !Clashes(s.chats, recordIds, c) {
      BeginsUndisturbed(s, recordIds, c, [Dies(Complete)]);
      var upserted := s.chats[c.id := Upserted(At(s.chats, c.id), c.row)];
      assert At(upserted, c.id) != At(s.chats, c.id);
      assert !HarmlessUnder(s, recordIds, c, FromUpsert(c, [Dies(Complete)]));
    } else {
      forall plan ensures HarmlessUnder(s, recordIds, c, plan) {
        ImportIsWrite(s.(plan := plan), recordIds, c);
      }
    }
  }

  // ----- a process that dies

  /** An operation fails, and then the process dies when the rollback has deleted the session: the
      stored chat is gone. */
  lemma {:induction false} DeathInRollbackLosesChat(s: State, recordIds: set<string>, c: Chat)
    requires s.ok && !s.dead && Begins(s, c) && c.id in s.chats && !Clashes(s.chats, recordIds, c)
    ensures ImportChat(s.(plan := FromUpsert(c, [Succeeds, Fails(Untouched), Dies(Complete)])), recordIds, c).chats
         == s.chats - {c.id}
  {
    var s0 := s.(plan := [Succeeds, Fails(Untouched), Dies(Complete)]);
    BeginsUndisturbed(s, recordIds, c, s0.plan);
    assert s0.plan[1..] == [Fails(Untouched), Dies(Complete)] && s0.plan[1..][1..] == [Dies(Complete)];
    var upserted := Attempt(s0, UpsertSession(s0, c));
    var failed := ReplaceItems(upserted, c);
    assert !failed.ok && !failed.dead && failed.plan == [Dies(Complete)] && failed.chats == upserted.chats;
    var e := s.chats[c.id];
    var gone := DropSession(failed, c.id);
    assert gone.dead && gone.chats == s.chats - {c.id};
    DeadStays(gone);
    assert RewriteItems(RewriteSession(gone, e, c.id), e, c.id) == gone;
  }

  lemma {:induction false} DeadStays(s: State)
    requires s.dead
    ensures forall t, part :: UndoParts(s, t, part) == s
    ensures forall t :: Undo(s, t) == s
  {}

  ghost predicate NoFailure(plan: Plan) { forall i :: 0 <= i < |plan| ==> !plan[i].Fails? }

  /** The chats and the raw files once the chat is imported. */
  ghost predicate MergedBy(t: State, s: State, c: Chat) {
    && t.chats == s.chats[c.id := MergeChat(At(s.chats, c.id), c.row)]
    && t.raw == MergeRaw(s.chats, s.raw, c)
  }

  /** Where a process that has had no failure dies: before the session is written, or after it with
      the row as new as the snapshot's. */
  ghost predicate DiedAt(t: State, s: State, c: Chat) {
    || (t.chats == s.chats && t.raw == s.raw)
    || (Elsewhere(t.chats, s.chats, c.id) && c.id in t.chats && t.chats[c.id].updatedAt == c.row.updatedAt)
  }

  lemma {:induction false} FinishDies(upserted: State, before: State, c: Chat)
    requires upserted.ok && !upserted.dead && !Skips(At(before.chats, c.id), c.row)
    requires NoFailure(upserted.plan) && DistinctOrdinals(c.row.items)
    requires upserted.chats == UpsertSession(before, c).chats && upserted.raw == before.raw
    ensures var t := Finish(upserted, before, c); t.dead ==> DiedAt(t, before, c)
  {
    var withItems := ReplaceItems(upserted, c);
    ItemsLeave(upserted, c);
    assert withItems.ok || withItems.dead;
    if withItems.ok {
      assert NoFailure(withItems.plan);
      var promoted := PromoteRaw(withItems, c);
      PromoteLeaves(withItems, c);
      assert promoted.ok || promoted.dead;
    }
  }

  lemma {:induction false} WriteDies(s: State, recordIds: set<string>, c: Chat)
    requires s.ok ==> !s.dead && NoFailure(s.plan)
    requires !Skips(At(s.chats, c.id), c.row) && DistinctOrdinals(c.row.items)
    ensures var t := Write(s, recordIds, c); t.dead ==> DiedAt(t, s, c)
  {
    var upserted := Attempt(s, UpsertSession(s, c));
    if s.ok && !Clashes(s.chats, recordIds, c) && upserted.ok {
      FinishDies(upserted, s, c);
    }
  }

  lemma {:induction false} BeginDies(s: State, c: Chat)
    requires s.ok && !s.dead && NoFailure(s.plan)
    ensures var t := Begin(s, c); t.ok ==> !t.dead && NoFailure(t.plan)
  {}

  lemma {:induction false} ImportDies(s: State, recordIds: set<string>, c: Chat)
    requires s.ok && !s.dead && NoFailure(s.plan) && DistinctOrdinals(c.row.items)
    ensures var t := ImportChat(s, recordIds, c); t.dead ==> DiedAt(t, s, c)
  {
    ImportIsWrite(s, recordIds, c);
    if Begins(s, c) {
      BeginDies(s, c);
      WriteDies(Begin(s, c), recordIds, c);
    }
  }

  function Restarted(t: State, plan: Plan): State { t.(ok := true, dead := false, plan := plan) }

  /** Once the row is as new as the snapshot's, importing that again changes nothing, whatever is
      still missing of its items or its raw file. */
  lemma {:induction false} HalfImportedStays(t: State, recordIds: set<string>, c: Chat, plan: Plan)
    requires Skips(At(t.chats, c.id), c.row)
    ensures var u := ImportChat(Restarted(t, plan), recordIds, c); u.chats == t.chats && u.raw == t.raw
  {
    ImportIsWrite(Restarted(t, plan), recordIds, c);
  }

  /** Exactly when importing the snapshot again, undisturbed, makes up for a death: the process died
      before the session was written, or after everything was. */
  lemma {:induction false} ReimportHealsExactly(s: State, recordIds: set<string>, c: Chat)
    requires s.ok && !s.dead && NoFailure(s.plan) && Begins(s, c) && Writable(s.chats, recordIds, c)
    ensures var t := ImportChat(s, recordIds, c);
      var u := ImportChat(Restarted(t, []), recordIds, c);
      t.dead ==>
        && u.ok
        && (MergedBy(u, s, c) <==> (t.chats == s.chats && t.raw == s.raw) || MergedBy(t, s, c))
  {
    var t := ImportChat(s, recordIds, c);
    if t.dead {
      ImportDies(s, recordIds, c);
      var again := Restarted(t, []);
      SucceedsExactly(again, recordIds, c);
      if t.chats == s.chats && t.raw == s.raw {
        SuccessMerges(again, recordIds, c);
      } else {
        HalfImportedStays(t, recordIds, c, []);
        forall id | id in t.chats && t.chats[id].key == c.row.key ensures id == c.id {
          assert At(t.chats, id) == At(s.chats, id) || id == c.id;
        }
      }
    }
  }

  // ----- when it succeeds

  lemma {:induction false} WriteSucceedsExactly(s: State, recordIds: set<string>, c: Chat)
    requires s.ok && NoFault(s.plan)
    ensures var t := Write(s, recordIds, c);
      && (t.ok <==> !Clashes(s.chats, recordIds, c) && DistinctOrdinals(c.row.items))
      && (t.ok ==> NoFault(t.plan) && t.dead == s.dead)
  {
    PlanGoesOn(s.plan);
    PlanGoesOn(After(s.plan));
    PlanGoesOn(After(After(s.plan)));
    if !Clashes(s.chats, recordIds, c) && !DistinctOrdinals(c.row.items) {
      FinishFails(Attempt(s, UpsertSession(s, c)), s, c);
    }
  }

  lemma {:induction false} FinishFails(upserted: State, before: State, c: Chat)
    requires c.id in upserted.chats && upserted.ok && !DistinctOrdinals(c.row.items)
    ensures !Finish(upserted, before, c).ok
  {
    ItemsLeave(upserted, c);
    var withItems := ReplaceItems(upserted, c);
    GiveUpLeaves(withItems, before, c.id, withItems.chats[c.id]);
  }

  /** What the code finds out about a chat only when it comes to write it. */
  predicate Writable(chats: Chats, recordIds: set<string>, c: Chat) {
    !Clashes(chats, recordIds, c) && !RawEmpty(c) && DistinctOrdinals(c.row.items)
  }

  lemma {:induction false} BeginWorks(s: State, c: Chat)
    requires s.ok && NoFault(s.plan)
    ensures Begin(s, c).ok && NoFault(Begin(s, c).plan) && Begin(s, c).dead == s.dead
  {}

  lemma {:induction false} SkippingWorks(s: State, recordIds: set<string>, c: Chat)
    requires s.ok && NoFault(s.plan) && IdentityFree(s.chats, c) && Skips(At(s.chats, c.id), c.row)
    ensures var t := ImportChat(s, recordIds, c); t.ok && NoFault(t.plan) && t.dead == s.dead
  {}

  /** Whatever is imported is old or writable; when nothing goes wrong, everything that is and has
      its source identity free is imported. */
  lemma {:induction false} SucceedsExactly(s: State, recordIds: set<string>, c: Chat)
    requires s.ok
    ensures var t := ImportChat(s, recordIds, c);
      && (t.ok ==> IdentityFree(s.chats, c) && (Skips(At(s.chats, c.id), c.row) || Writable(s.chats, recordIds, c)))
      && (NoFault(s.plan) ==>
            if IdentityFree(s.chats, c) && (Skips(At(s.chats, c.id), c.row) || Writable(s.chats, recordIds, c))
            then t.ok && NoFault(t.plan) else !t.ok)
  {
    ImportIsWrite(s, recordIds, c);
    if NoFault(s.plan) {
      BeginWorks(s, c);
      WriteSucceedsExactly(Begin(s, c), recordIds, c);
      if IdentityFree(s.chats, c) && Skips(At(s.chats, c.id), c.row) {
        SkippingWorks(s, recordIds, c);
      }
    }
    if Begins(s, c) {
      WriteNeedsWritable(Begin(s, c), recordIds, c);
    }
  }

  lemma {:induction false} WriteNeedsWritable(s: State, recordIds: set<string>, c: Chat)
    ensures Write(s, recordIds, c).ok ==> !Clashes(s.chats, recordIds, c) && DistinctOrdinals(c.row.items)
  {
    var upserted := Attempt(s, UpsertSession(s, c));
    if s.ok && !Clashes(s.chats, recordIds, c) && upserted.ok && !DistinctOrdinals(c.row.items) {
      FinishFails(upserted, s, c);
    }
  }

  /** The two together. */
  lemma {:induction false} Outcome(s: State, recordIds: set<string>, c: Chat)
    requires s.ok
    ensures var t := ImportChat(s, recordIds, c);
      && (t.ok ==>
            && t.chats == s.chats[c.id := MergeChat(At(s.chats, c.id), c.row)] && t.raw == MergeRaw(s.chats, s.raw, c)
            && (Skips(At(s.chats, c.id), c.row) || Writable(s.chats, recordIds, c)))
      && (!t.ok ==> Left(t.chats, s.chats, c) && RawLeft(t.raw, s.raw, At(s.chats, c.id), c))
      && (NoFault(s.plan) ==>
            && (t.ok <==>
                  IdentityFree(s.chats, c) && (Skips(At(s.chats, c.id), c.row) || Writable(s.chats, recordIds, c)))
            && (t.ok ==> NoFault(t.plan)))
  {
    SuccessMerges(s, recordIds, c);
    FailureLeaves(s, recordIds, c);
    SucceedsExactly(s, recordIds, c);
  }
}
