/** When an edit in which nothing goes wrong succeeds. */
module EditSuccess {
  import opened Common
  import opened EditSaga
  import opened EditUndo
  import opened EditResult

  lemma {:induction false} StageAllWorks(s: Edit, kind: Kind, inputs: seq<Input>)
    requires s.ok && NoFault(s.plan)
    ensures var t := StageAll(s, kind, inputs); t.ok && NoFault(t.plan)
    decreases |inputs|
  {
    if inputs != [] {
      StageAllWorks(StageOne(s, kind, inputs[0]), kind, inputs[1..]);
    }
  }

  /** No row is created under a name that has one. */
  predicate CreatesOnce(known: map<string, OldRow>, done: seq<Input>, inputs: seq<Input>)
    decreases |inputs|
  {
    inputs == [] ||
    ((inputs[0].name in known || inputs[0].name !in Names(done)) && CreatesOnce(known, done + [inputs[0]], inputs[1..]))
  }

  lemma {:induction false} UpsertOneWorks(
    s: Edit, kind: Kind, known: map<string, OldRow>, done: seq<Input>, input: Input)
    requires s.ok && NoFault(s.plan)
    requires WellKnown(known) && TableIs(SideOf(s, kind).table, known, done)
    ensures var t := UpsertOne(s, kind, known, input);
      NoFault(t.plan) && (t.ok <==> input.name in known || input.name !in Names(done))
  {
    LastNamedFinds(done, input.name);
    var t := SideOf(s, kind).table;
    if input.name !in known && HasName(t, input.name) {
      var id :| id in t && t[id].name == input.name;
      assert Expected(known, done, input.name) == Some(t[id]);
    }
  }

  lemma {:induction false} UpsertAllWorks(s: Edit, kind: Kind, known: map<string, OldRow>, done: seq<Input>,
      inputs: seq<Input>)
    requires s.ok && NoFault(s.plan)
    requires WellKnown(known) && TableIs(SideOf(s, kind).table, known, done)
    requires forall id :: id in SideOf(s, kind).table ==> id < s.next
    ensures var t := UpsertAll(s, kind, known, inputs);
      (t.ok <==> CreatesOnce(known, done, inputs)) && (t.ok ==> NoFault(t.plan))
    decreases |inputs|
  {
    if inputs != [] {
      var s1 := UpsertOne(s, kind, known, inputs[0]);
      UpsertOneWorks(s, kind, known, done, inputs[0]);
      if s1.ok {
        UpsertOneWrites(s, kind, known, done, inputs[0]);
        UpsertAllWorks(s1, kind, known, done + [inputs[0]], inputs[1..]);
      }
    }
  }

  lemma {:induction false} CommitAllWorks(s: Edit, staged: seq<Staged>)
    requires s.ok && NoFault(s.plan)
    requires forall st :: st in staged ==> st.temp.Temp? && st.final.Final? && st.temp in s.files
    requires forall i, k :: 0 <= i < k < |staged| ==> staged[i].temp != staged[k].temp
    ensures var t := CommitAll(s, staged); t.ok && NoFault(t.plan)
    decreases |staged|
  {
    if staged != [] {
      var s1 := CommitOne(s, staged[0]);
      assert s1.ok && NoFault(s1.plan) && s1.files.Keys >= s.files.Keys - {staged[0].temp, staged[0].final};
      forall st | st in staged[1..] ensures st.temp in s1.files {
        assert st in staged && st.temp != staged[0].temp;
      }
      CommitAllWorks(s1, staged[1..]);
    }
  }

  lemma {:induction false} DeleteAllWorks(s: Edit, kind: Kind, olds: seq<OldRow>, keep: set<string>)
    requires s.ok && NoFault(s.plan)
    requires forall o :: o in olds ==> o.id in SideOf(s, kind).table
    requires forall i, k :: 0 <= i < k < |olds| ==> olds[i].id != olds[k].id
    ensures var t := DeleteAll(s, kind, olds, keep); t.ok && NoFault(t.plan)
    decreases |olds|
  {
    if olds != [] {
      var s1 := DeleteOne(s, kind, olds[0], keep);
      assert s1.ok && NoFault(s1.plan);
      forall o | o in olds[1..] ensures o.id in SideOf(s1, kind).table {
        assert o in olds && o.id != olds[0].id;
      }
      DeleteAllWorks(s1, kind, olds[1..], keep);
    }
  }

  /** A name the record does not have yet is given once only. */
  ghost predicate NewNamesOnce(olds: seq<OldRow>, inputs: seq<Input>) {
    forall i, k :: 0 <= i < k < |inputs| && inputs[i].name == inputs[k].name ==> Has(olds, inputs[k].name)
  }

  ghost predicate Has(olds: seq<OldRow>, name: string) { exists o :: o in olds && o.row.name == name }

  /** The k-th input does not create a row under a name that has one. */
  predicate CreatesNew(known: map<string, OldRow>, done: seq<Input>, inputs: seq<Input>, k: nat)
    requires k < |inputs|
  {
    inputs[k].name in known || inputs[k].name !in Names(done + inputs[..k])
  }

  lemma {:induction false} CreatesNewLater(known: map<string, OldRow>, done: seq<Input>, inputs: seq<Input>, k: nat)
    requires k + 1 < |inputs|
    ensures CreatesNew(known, done, inputs, k + 1) == CreatesNew(known, done + [inputs[0]], inputs[1..], k)
  {
    assert done + inputs[..k + 1] == done + [inputs[0]] + inputs[1..][..k];
  }

  lemma {:induction false} CreatesOnceMeans(known: map<string, OldRow>, done: seq<Input>, inputs: seq<Input>)
    ensures CreatesOnce(known, done, inputs) <==> (forall k :: 0 <= k < |inputs| ==> CreatesNew(known, done, inputs, k))
    decreases |inputs|
  {
    if inputs != [] {
      CreatesOnceMeans(known, done + [inputs[0]], inputs[1..]);
      assert done + inputs[..0] == done;
      forall k | 0 <= k < |inputs| - 1
        ensures CreatesNew(known, done, inputs, k + 1) == CreatesNew(known, done + [inputs[0]], inputs[1..], k)
      {
        CreatesNewLater(known, done, inputs, k);
      }
      assert CreatesNew(known, done, inputs, 0) == (inputs[0].name in known || inputs[0].name !in Names(done));
      if CreatesOnce(known, done, inputs) {
        forall k | 0 <= k < |inputs| ensures CreatesNew(known, done, inputs, k) {
          assert k > 0 ==> CreatesNew(known, done + [inputs[0]], inputs[1..], k - 1);
        }
      }
    }
  }

  lemma {:induction false} CreatesNewMeans(olds: seq<OldRow>, inputs: seq<Input>, k: nat)
    requires k < |inputs|
    ensures CreatesNew(ByName(olds), [], inputs, k) <==>
            forall i :: 0 <= i < k && inputs[i].name == inputs[k].name ==> Has(olds, inputs[k].name)
  {
    ByNameFinds(olds, inputs[k].name);
    assert inputs[k].name in ByName(olds) <==> Has(olds, inputs[k].name);
    assert [] + inputs[..k] == inputs[..k];
    forall i | 0 <= i < k ensures inputs[i].name in Names(inputs[..k]) {
      assert inputs[..k][i] in inputs[..k];
    }
  }

  lemma {:induction false} NewNamesOnceMeans(olds: seq<OldRow>, inputs: seq<Input>)
    ensures CreatesOnce(ByName(olds), [], inputs) <==> NewNamesOnce(olds, inputs)
  {
    CreatesOnceMeans(ByName(olds), [], inputs);
    forall k | 0 <= k < |inputs|
      ensures CreatesNew(ByName(olds), [], inputs, k) <==>
              forall i :: 0 <= i < k && inputs[i].name == inputs[k].name ==> Has(olds, inputs[k].name)
    {
      CreatesNewMeans(olds, inputs, k);
    }
  }

  lemma {:induction false} StagingWorks(s: Edit, j: Job)
    requires s.ok && NoFault(s.plan)
    ensures var t := Staging(s, j); t.ok && NoFault(t.plan)
  {
    var s1 := UpdateRecord(s, j.record);
    StageAllWorks(s1, Figure, j.figures);
    StageAllWorks(StageAll(s1, Figure, j.figures), Data, j.data);
  }

  lemma {:induction false} SideWorks(s: Edit, kind: Kind, olds: seq<OldRow>, inputs: seq<Input>)
    requires s.ok && NoFault(s.plan) && Untouched(SideOf(s, kind), olds, s.next)
    ensures var t := UpsertAll(s, kind, ByName(olds), inputs);
      t.next >= s.next && (t.ok <==> NewNamesOnce(olds, inputs)) && (t.ok ==> NoFault(t.plan))
  {
    ByNameExact(olds, SideOf(s, kind).table);
    UpsertsLater(s, kind, olds, inputs);
    UpsertAllWorks(s, kind, ByName(olds), [], inputs);
    NewNamesOnceMeans(olds, inputs);
  }

  lemma {:induction false} UpsertingWorks(s: Edit, j: Job)
    requires s.ok && NoFault(s.plan)
    requires Untouched(s.figures, j.oldFigures, s.next) && Untouched(s.data, j.oldData, s.next)
    ensures var t := Upserting(s, j);
      && (t.ok <==> NewNamesOnce(j.oldFigures, j.figures) && NewNamesOnce(j.oldData, j.data))
      && (t.ok ==> NoFault(t.plan))
  {
    SideWorks(s, Figure, j.oldFigures, j.figures);
    var s1 := UpsertAll(s, Figure, ByName(j.oldFigures), j.figures);
    if s1.ok {
      SideWorks(s1, Data, j.oldData, j.data);
    }
  }

  lemma {:induction false} DeletingWorks(s: Edit, j: Job)
    requires s.ok && NoFault(s.plan)
    requires TableIs(s.figures.table, ByName(j.oldFigures), j.figures)
    requires TableIs(s.data.table, ByName(j.oldData), j.data)
    requires exists s0 :: Starts(s0, j)
    ensures Deleting(s, j).ok
  {
    var s0 :| Starts(s0, j);
    ListedThere(s.figures.table, s0.figures.table, j.oldFigures, j.figures);
    ListedThere(s.data.table, s0.data.table, j.oldData, j.data);
    DeleteAllWorks(s, Figure, j.oldFigures, Names(j.figures));
    DeleteAllWorks(DeleteAll(s, Figure, j.oldFigures, Names(j.figures)), Data, j.oldData, Names(j.data));
  }

  lemma {:induction false} ListedThere(t: Table, t0: Table, olds: seq<OldRow>, inputs: seq<Input>)
    requires TableIs(t, ByName(olds), inputs) && Lists(olds, t0) && UniqueNames(t0)
    ensures forall o :: o in olds ==> o.id in t
    ensures forall i, k :: 0 <= i < k < |olds| ==> olds[i].id != olds[k].id
  {
    ByNameExact(olds, t0);
    forall i, k | 0 <= i < k < |olds| ensures olds[i].id != olds[k].id {
      assert olds[i] in olds && olds[k] in olds && olds[i] != olds[k];
    }
  }

  /** When no operation fails, an edit succeeds exactly when no new name is given twice for one
      kind. (A name the record already has may be: the last one stands.) */
  lemma {:induction false} SucceedsExactly(s: Edit, j: Job, stuck: set<Path>)
    requires Starts(s, j) && NoFault(s.plan)
    ensures RunEdit(s, j, stuck).ok <==> NewNamesOnce(j.oldFigures, j.figures) && NewNamesOnce(j.oldData, j.data)
  {
    StagingWorks(s, j);
    StagingUndoable(s, j);
    UpsertingWorks(Staging(s, j), j);
    UpsertedReady(s, j);
    var u := Upserting(Staging(s, j), j);
    if u.ok {
      CommitAllWorks(u, u.staged);
      DeletingWorks(CommitAll(u, u.staged), j);
    }
  }
}
