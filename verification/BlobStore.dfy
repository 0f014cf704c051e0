/**
 Crash ordering of file blobs. A blob is written to a temporary name, synced, renamed to its digest,
 and its directory synced, before the transaction that refers to it commits. Any call may throw, the
 process may die between any two of them, and a power loss may undo whatever was not synced.
 */
module BlobStore {
  import opened Prelude

  type Digest = string

  datatype Name = Final(digest: Digest) | Temp(n: nat)

  datatype Point = AtOpen | AtWrite | AtSync | AtRename | AtSyncDirectory | AtChmod | AtCommit

  /** Where one append fails, if anywhere: by an error the caller survives, or by the death of the process. */
  datatype Fault = NoFault | Fails(at: Point, died: bool)

  datatype Outcome = Committed | Threw | Died

  /** Failing before the commit decides the outcome of placing a new blob. */
  function PersistOutcome(fault: Fault): Outcome {
    if fault.NoFault? || fault.at.AtCommit? then Committed else if fault.died then Died else Threw
  }

  class Blobs {
    /** The directory as the running system sees it. */
    var live: set<Name>
    /** The directory as of its last sync, and the names changed since then. */
    var synced: set<Name>
    var touched: set<Name>
    /** The digests whose bytes were completely written and synced under their final name. */
    ghost var whole: set<Digest>
    /** The committed file rows. */
    var committed: set<Digest>
    /** Whether this process has reconciled the directory since it started. */
    var reconciled: bool

    /** The entry is certain to be there after a power loss. */
    ghost predicate Durable(d: Digest)
      reads this
    {
      Final(d) in synced && Final(d) !in touched
    }

    ghost predicate AllDurable()
      reads this
    {
      forall d :: d in committed ==> Durable(d)
    }

    ghost predicate Valid()
      reads this
    {
      && (forall n :: n !in touched ==> (n in live <==> n in synced))
      && (forall n :: n in live + synced + touched && n.Final? ==> n.digest in whole)
      && committed <= whole
    }

    /** No entry with a final name is waiting to be synced, unless the process has yet to reconcile. */
    ghost predicate Clean()
      reads this
    {
      forall d :: Final(d) in live && reconciled ==> Durable(d)
    }

    constructor ()
      ensures Valid() && AllDurable() && Clean() && live == {} && committed == {} && reconciled
    {
      live, committed, reconciled := {}, {}, true;
      synced, touched, whole := {}, {}, {};
    }

    method Add(n: Name)
      requires Valid() && (n.Final? ==> n.digest in whole)
      modifies this`live, this`touched
      ensures Valid() && live == old(live) + {n} && touched == old(touched) + {n}
    {
      live, touched := live + {n}, touched + {n};
    }

    method Unlink(n: Name)
      requires Valid() && n in live
      modifies this`live, this`touched
      ensures Valid() && live == old(live) - {n} && touched == old(touched) + {n}
    {
      live, touched := live - {n}, touched + {n};
    }

    method SyncDirectory()
      requires Valid()
      modifies this`synced, this`touched
      ensures Valid() && synced == live && touched == {}
    {
      synced, touched := live, {};
    }

    /** After a power loss the directory holds what was synced, and any part of what was not. */
    method LosePower(survivors: set<Name>)
      requires Valid() && synced - touched <= survivors <= synced + touched
      modifies this
      ensures Valid() && Clean() && live == survivors && committed == old(committed) && !reconciled
      ensures old(AllDurable()) ==> AllDurable() && forall d :: d in committed ==> Final(d) in live
    {
      live, reconciled := survivors, false;
      synced, touched := survivors, {};
    }

    method Restart()
      requires Valid()
      modifies this`reconciled
      ensures Valid() && Clean() && !reconciled
    {
      reconciled := false;
    }

    /**
     `reconcileBlobDirectory`: temporary files and unreferenced blobs go, referenced ones stay. It can
     stop after any unlink; then the next operation starts it again.
     */
    method Reconcile(steady: bool) returns (outcome: Outcome)
      requires Valid() && AllDurable() && !reconciled
      modifies this`live, this`synced, this`touched, this`reconciled
      ensures Valid() && AllDurable() && Clean()
      ensures (reconciled <==> outcome.Committed?) && (steady ==> reconciled)
      ensures outcome.Committed? ==> live == set d | d in committed :: Final(d)
    {
      var entries := live;
      var changed := false;
      while entries != {}
        invariant Valid() && AllDurable() && !reconciled && entries <= live
        invariant forall n :: n in live && n !in entries ==> n.Final? && n.digest in committed
        invariant !changed ==> touched == old(touched) && live == old(live)
        decreases entries
      {
        var stop := Interrupted(steady);
        if stop { return Threw; }
        var n :| n in entries;
        entries := entries - {n};
        if n.Temp? || n.digest !in committed {
          Unlink(n);
          changed := true;
        }
      }
      forall d | d in committed ensures Final(d) in live { assert Durable(d); }
      if changed {
        var stop := Interrupted(steady);
        if stop { return Threw; }
        SyncDirectory();
      }
      reconciled := true;
      return Committed;
    }

    /** `persistBlob`: an existing final file is taken as it is; otherwise write, sync, rename, sync the directory. */
    method PersistBlob(d: Digest, temp: nat, fault: Fault) returns (outcome: Outcome, created: bool)
      requires Valid() && AllDurable() && Temp(temp) !in live
      modifies this`live, this`synced, this`touched, this`whole
      ensures Valid() && AllDurable()
      ensures Final(d) in old(live) ==> outcome.Committed? && !created && live == old(live)
      ensures Final(d) in old(live) ==> touched == old(touched) && synced == old(synced)
      ensures Final(d) !in old(live) ==> outcome == PersistOutcome(fault)
      ensures Final(d) !in old(live) && outcome.Committed? ==> created && Durable(d) && touched == {}
      ensures !outcome.Committed? ==> forall e :: e != d ==> (Final(e) in live <==> Final(e) in old(live))
      ensures !outcome.Committed? ==> forall e :: e != d && old(Durable(e)) ==> Durable(e)
      ensures outcome.Threw? && Final(d) !in old(live) ==> (Final(d) in live <==> fault.at.AtSyncDirectory? || fault.at.AtChmod?)
      ensures outcome.Threw? && fault.at.AtSyncDirectory? ==> !Durable(d) && live == old(live) + {Final(d)}
      ensures outcome.Threw? && fault.at.AtChmod? ==> Durable(d)
    {
      created := false;
      if Final(d) in live { return Committed, false; }
      if fault.Fails? && fault.at.AtOpen? { return if fault.died then Died else Threw, false; }
      Add(Temp(temp));
      if fault.Fails? && (fault.at.AtWrite? || fault.at.AtSync? || fault.at.AtRename?) {
        if fault.died { return Died, false; }
        Unlink(Temp(temp));
        return Threw, false;
      }
      whole := whole + {d};
      Unlink(Temp(temp));
      Add(Final(d));
      if fault.Fails? && fault.at.AtSyncDirectory? { return if fault.died then Died else Threw, false; }
      SyncDirectory();
      if fault.Fails? && fault.at.AtChmod? { return if fault.died then Died else Threw, false; }
      return Committed, true;
    }

    /** `removeUnreferencedBlob`: only what no committed row refers to; a failure here is swallowed. */
    method RemoveUnreferenced(d: Digest)
      requires Valid() && AllDurable()
      modifies this`live, this`synced, this`touched
      ensures Valid() && AllDurable()
      ensures forall e :: e != d || d in committed ==> (Final(e) in live <==> Final(e) in old(live)) && (old(Durable(e)) ==> Durable(e))
      ensures old(Clean()) ==> Clean()
    {
      if d in committed || Final(d) !in live { return; }
      var stop := Interrupted(false);
      if stop { return; }
      Unlink(Final(d));
      stop := Interrupted(false);
      if stop { return; }
      SyncDirectory();
    }

    /** The transaction that makes the row visible; a failing one may have taken effect all the same. */
    method Commit(d: Digest, fault: Fault, stored: bool, created: bool) returns (outcome: Outcome)
      requires Valid() && AllDurable() && d in whole
      requires created ==> Durable(d)
      modifies this
      ensures Valid() && whole == old(whole)
      ensures AllDurable() <==> d !in committed || old(Durable(d))
      ensures outcome.Committed? <==> !(fault.Fails? && fault.at.AtCommit?)
      ensures committed == if outcome.Committed? || stored then old(committed) + {d} else old(committed)
      ensures old(Clean()) ==> Clean()
      ensures outcome.Committed? ==> reconciled == old(reconciled)
    {
      var fails := fault.Fails? && fault.at.AtCommit?;
      if !fails || stored { committed := committed + {d}; }
      if !fails { return Committed; }
      if fault.died {
        reconciled := false;
        return Died;
      }
      if created {
        if d in committed { return Threw; }
        RemoveUnreferenced(d);
      }
      return Threw;
    }

    /**
     One file append, starting with reconciliation when the process has not done so yet. Committed rows
     keep their durable blobs exactly when the blob this row refers to was placed by this very append,
     or was already durable: an entry found in place is not synced again.
     */
    method AppendFile(d: Digest, temp: nat, fault: Fault, stored: bool) returns (outcome: Outcome)
      requires Valid() && AllDurable() && Temp(temp) !in live
      modifies this
      ensures Valid()
      ensures AllDurable() <==> d !in committed || !old(reconciled) || Final(d) !in old(live) || old(Durable(d))
      ensures old(Clean()) && fault != Fails(AtSyncDirectory, false) ==> Clean()
      ensures old(Clean()) ==> AllDurable()
      ensures committed == old(committed) || committed == old(committed) + {d}
      ensures outcome.Committed? ==> d in committed
      ensures fault.NoFault? && old(reconciled) ==> outcome.Committed?
      ensures fault == Fails(AtSyncDirectory, false) && Final(d) !in old(live) && old(reconciled) ==>
        reconciled && live == old(live) + {Final(d)} && !Durable(d) && committed == old(committed)
    {
      if !reconciled {
        outcome := Reconcile(false);
        if !outcome.Committed? { return; }
      }
      var created;
      outcome, created := PersistBlob(d, temp, fault);
      if outcome.Died? { reconciled := false; }
      if !outcome.Committed? { return; }
      outcome := Commit(d, fault, stored, created);
    }

    /** A power loss at a moment when every committed row is safe loses none of them, and reconciling leaves exactly them. */
    method Recover(survivors: set<Name>, steady: bool) returns (outcome: Outcome)
      requires Valid() && AllDurable() && synced - touched <= survivors <= synced + touched
      modifies this
      ensures Valid() && AllDurable() && committed == old(committed)
      ensures forall d :: d in committed ==> Final(d) in live && d in whole
      ensures steady ==> outcome.Committed?
      ensures outcome.Committed? ==> live == set d | d in committed :: Final(d)
    {
      LosePower(survivors);
      outcome := Reconcile(steady);
      forall d | d in committed ensures Final(d) in live { assert Durable(d); }
    }
  }

  /**
   Where the failing family ends: if the process is restarted instead of living on after the failed
   directory sync, the next append reconciles first, and no power loss takes its blob any more.
   */
  method RestartedSyncFailure(survivors: set<Name>) returns (b: Blobs)
    ensures fresh(b) && b.Valid() && forall d :: d in b.committed ==> Final(d) in b.live && d in b.whole
  {
    b := new Blobs();
    var first := b.AppendFile("d", 0, Fails(AtSyncDirectory, false), false);
    b.Restart();
    var second := b.AppendFile("d", 1, NoFault, false);
    if b.synced - b.touched <= survivors <= b.synced + b.touched {
      var outcome := b.Recover(survivors, true);
    } else {
      var outcome := b.Recover(b.synced - b.touched, true);
    }
  }

  /**
   The failing family in one run: a directory sync fails and the process lives on, the same bytes are
   appended again and committed, and a power loss then takes the blob from under the committed row.
   */
  method SurvivedSyncFailure() returns (b: Blobs)
    ensures fresh(b) && b.Valid() && exists d :: d in b.committed && Final(d) !in b.live
  {
    b := new Blobs();
    var first := b.AppendFile("d", 0, Fails(AtSyncDirectory, false), false);
    assert b.committed == {} && !b.Durable("d");
    var second := b.AppendFile("d", 1, NoFault, false);
    assert "d" in b.committed && !b.AllDurable();
    assert b.committed == {"d"};
    b.LosePower((b.synced + b.touched) - {Final("d")});
  }
}
