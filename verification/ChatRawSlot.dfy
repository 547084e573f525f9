/** The managed raw copy of one chat: PromoteChatSourceStage replaces it by renames with a backup. */
module ChatRawSlot {
  import opened Common
  import opened RestoreDisk

  ghost predicate AllFine(plan: seq<Fault>) { forall i :: 0 <= i < |plan| ==> plan[i] == Fine }

  /** active is chats/raw/<id>, backup and stage are its siblings; plan is as for the restore. */
  class Slot {
    var active: Option<string>
    var backup: Option<string>
    var stage: Option<string>
    var plan: seq<Fault>

    constructor (active: Option<string>, stage: Option<string>, plan: seq<Fault>)
      ensures this.active == active && backup == None && this.stage == stage && this.plan == plan
    {
      this.active, backup, this.stage, this.plan := active, None, stage, plan;
    }

    /** The next operation works, fails or is where the process dies, perhaps after its effect. */
    method Try() returns (st: Status, applied: bool)
      modifies `plan
      ensures st in {Ok, Err, Crashed}
      ensures st == Ok ==> applied
      ensures st == Err ==> !applied
      ensures plan == Tail(old(plan))
      ensures AllFine(old(plan)) ==> st == Ok && AllFine(plan)
    {
      match Head(plan) {
        case Fine => st, applied := Ok, true;
        case Fail(_, _) => st, applied := Err, false;
        case Crash(a, _) => st, applied := Crashed, a;
      }
      plan := Tail(plan);
    }

    /** restoreChatRawBackup. Nothing is undone when there was no previous copy. */
    method RestoreBackup(hadBackup: bool) returns (st: Status)
      requires hadBackup ==> backup.Some?
      modifies `active, `backup, `plan
      ensures st in {Ok, Err, Crashed}
      ensures !hadBackup ==> active == old(active) && backup == old(backup)
      ensures hadBackup && st == Ok ==> active == old(backup) && backup == None
      ensures AllFine(old(plan)) ==> st == Ok
      ensures hadBackup ==>
        || (active == old(backup) && backup == None)
        || (backup == old(backup) && active in {old(active), None})
    {
      st := Ok;
      if !hadBackup {
        return;
      }
      var applied;
      st, applied := Try();
      if applied {
        active := None;
      }
      if st != Ok {
        return;
      }
      st, applied := Try();
      if applied {
        active, backup := backup, None;
      }
      if st != Ok {
        return;
      }
      st, applied := Try();
    }

    /** Whatever fails and wherever the process dies, the managed copy is the old one, the staged one,
        or missing, and when it is missing the backup has the old one. */
    method Promote() returns (st: Status)
      requires backup == None
      modifies this
      ensures st in {Ok, Err, Crashed}
      ensures st == Ok ==> old(stage).Some? && active == old(stage) && backup == None
      ensures AllFine(old(plan)) && old(stage).Some? ==> st == Ok
      ensures active in {old(active), None, old(stage)}
      ensures active == None && old(active).Some? ==> backup == old(active)
    {
      var applied;
      st, applied := Try();
      if st != Ok || stage.None? {
        st := if st == Ok then Err else st;
        return;
      }
      var hadBackup := active.Some?;
      if hadBackup {
        st, applied := Try();
        if applied {
          active, backup := None, active;
        }
        if st != Ok {
          return;
        }
      }
      st, applied := Try();
      if applied {
        active, stage := stage, None;
      }
      if st == Ok {
        st, applied := Try();
      }
      if st == Ok {
        st, applied := Try();
      }
      if st == Err {
        st := RestoreBackup(hadBackup);
        if st == Ok {
          st := Err;
        }
        return;
      }
      if st == Ok && hadBackup {
        st, applied := Try();
        if applied {
          backup := None;
        }
      }
    }
  }
}
