// What an interrupted release leaves behind, what removing a row forgets, and how the command
// line's cleanup before a removal differs from both.
module OciCleanup {
  import opened Wrappers
  import opened Mappings
  import opened Validation
  import opened Tables
  import opened Oci

  // ---- A release that was cut off ----

  // The row's first reference is to a resource that is already gone.
  ghost predicate Stuck(s: Saga, id: string) {
    && Accounted(s) && id in s.table
    && match s.table[id].ociPublicIp
       case Some(public) => public !in s.publics
       case None => s.table[id].ociPrivateIp.Some? && s.table[id].ociPrivateIp.value !in s.privates
  }

  // Deleting what is gone is an error, and the first error ends a release.
  lemma StuckReleaseDoesNothing(s: Saga, id: string, env: Replies, k: nat)
    requires Stuck(s, id)
    ensures Release(s, id, env, k) == (s, false)
  {
  }

  // A release that fails after it changed anything is stuck.
  lemma InterruptedReleaseIsStuck(s: Saga, id: string, env: Replies, k: nat)
    requires Accounted(s) && !Release(s, id, env, k).1 && Release(s, id, env, k).0 != s
    ensures Stuck(Release(s, id, env, k).0, id)
  {
    ReleaseStaysAccounted(s, id, env, k);
    hide Accounted, WriteRow;
    var m := s.table[id];
    var s1 := DeleteIfSome(s, true, m.ociPublicIp, env(k + 1)).0;
    var k2 := After(m.ociPublicIp, k + 1);
    var s2 := DeleteIfSome(s1, false, m.ociPrivateIp, env(k2)).0;
    var k3 := After(m.ociPrivateIp, k2);
    WriteRowIs(s2, ReleasedRow(m, env(k3).now), env(k3));
  }

  // ---- When a release completes ----

  ghost predicate AllGood(env: Replies) {
    forall k :: env(k).kind == Good
  }

  // The row has a reference, and every resource it refers to is there.
  ghost predicate Releasable(s: Saga, id: string) {
    && id in s.table
    && (s.table[id].ociPublicIp.Some? || s.table[id].ociPrivateIp.Some?)
    && (s.table[id].ociPublicIp.Some? ==> s.table[id].ociPublicIp.value in s.publics)
    && (s.table[id].ociPrivateIp.Some? ==> s.table[id].ociPrivateIp.value in s.privates)
  }

  // Without its cloud address the row is valid under the present configuration.
  ghost predicate StaysValid(s: Saga, id: string)
    requires id in s.table
  {
    s.config.Some? && ValidMapping(s.table[id].(publicIp := None), s.config.value)
  }

  lemma ReleasedValidity(m: Mapping, config: EdgeConfig, now: Time)
    ensures ValidMapping(ReleasedRow(m, now), config) == ValidMapping(m.(publicIp := None), config)
  {
    assert ValidateMode(ReleasedRow(m, now)) == ValidateMode(m) == ValidateMode(m.(publicIp := None));
  }

  // The row without its cloud address passes the check, as the stored one did.
  lemma ReleasedRowPassesCheck(t: Table, id: string, now: Time)
    requires Keyed(t) && Exclusive(t) && id in t
    ensures DuplicateFree(t, ReleasedRow(t[id], now))
  {
    var m, row := t[id], ReleasedRow(t[id], now);
    forall other | other in t && other != row.id
      ensures RowCheck(t[other], row).Pass?
    {
      assert RowCheck(t[other], m).Pass?;
    }
  }

  lemma ReleasedRowIsSavedExactly(s: Saga, id: string, r: Reply)
    requires SoundRows(s) && id in s.table && r.kind == Good
    ensures WriteRow(s, ReleasedRow(s.table[id], r.now), r).1 <==> StaysValid(s, id)
  {
    hide Admits, ValidateMapping, RowCheck, Exclusive, DuplicateFree;
    var row := ReleasedRow(s.table[id], r.now);
    ReleasedRowPassesCheck(s.table, id, r.now);
    if s.config.Some? {
      ReleasedValidity(s.table[id], s.config.value, r.now);
    }
    CreationIrrelevantToCheck(s.table, row, s.table[id].createdAt);
    assert PortReady(s.table[id]);
    CheckedRowIsAdmitted(s.table, row.(createdAt := s.table[id].createdAt));
  }

  // With every call answered, a release completes exactly when the row has a reference, every
  // resource it refers to is there, and the row is valid without its cloud address.
  lemma ReleaseCompletesExactly(s: Saga, id: string, env: Replies, k: nat)
    requires SoundRows(s) && AllGood(env)
    ensures Release(s, id, env, k).1 <==> Releasable(s, id) && StaysValid(s, id)
  {
    hide SoundRows, WriteRow, ReleasedRow, StaysValid;
    if Releasable(s, id) {
      var m := s.table[id];
      var s1 := DeleteIfSome(s, true, m.ociPublicIp, env(k + 1)).0;
      var k2 := After(m.ociPublicIp, k + 1);
      var s2 := DeleteIfSome(s1, false, m.ociPrivateIp, env(k2)).0;
      SameRowsAreSound(s, s2, id);
      ReleasedRowIsSavedExactly(s2, id, env(After(m.ociPrivateIp, k2)));
    }
  }

  lemma SameRowsAreSound(s: Saga, s': Saga, id: string)
    requires SoundRows(s) && s'.table == s.table && s'.config == s.config && id in s.table
    ensures SoundRows(s') && (StaysValid(s', id) <==> StaysValid(s, id))
  {
  }

  // Under the configuration that a row was accepted under, it stays valid.
  lemma AcceptedRowStaysValid(s: Saga, id: string)
    requires s.config.Some? && id in s.table && ValidMapping(s.table[id], s.config.value)
    ensures StaysValid(s, id)
  {
    assert ValidateMode(s.table[id].(publicIp := None)) == ValidateMode(s.table[id]);
  }

  // A release that failed can still be completed exactly when it changed nothing and that condition
  // holds.
  lemma FailedReleaseCompletesExactly(s: Saga, id: string, env: Replies, k: nat, later: Replies, k': nat)
    requires Accounted(s) && SoundRows(s) && !Release(s, id, env, k).1 && AllGood(later)
    ensures var s' := Release(s, id, env, k).0;
            Release(s', id, later, k').1 <==> s' == s && Releasable(s, id) && StaysValid(s, id)
  {
    hide Accounted, SoundRows, Release, Releasable, Stuck, StaysValid;
    if Release(s, id, env, k).0 == s {
      ReleaseCompletesExactly(s, id, later, k');
    } else {
      InterruptedReleaseIsStuck(s, id, env, k);
      StuckReleaseDoesNothing(Release(s, id, env, k).0, id, later, k');
    }
  }

  // The same at any later time: after any further operations, new configurations among them, the
  // release completes exactly when the condition holds then.
  lemma LaterReleaseCompletesExactly(s: Saga, ops: seq<SagaOp>, id: string, env: Replies, k: nat)
    requires SoundRows(s) && AllGood(env)
    ensures var later := SagaRun(s, ops);
            Release(later, id, env, k).1 <==> Releasable(later, id) && StaysValid(later, id)
  {
    hide SoundRows, Release, Releasable, SagaRun, StaysValid;
    SagaRunStaysSound(s, ops);
    ReleaseCompletesExactly(SagaRun(s, ops), id, env, k);
  }

  // ---- An interrupted release stays stuck ----

  // What later steps may do to a stuck row: its references stay, and what is gone stays gone.
  ghost predicate Lasting(s: Saga, s': Saga, id: string) {
    && id in s.table && id in s'.table
    && s'.table[id].ociPublicIp == s.table[id].ociPublicIp
    && s'.table[id].ociPrivateIp == s.table[id].ociPrivateIp
    && s'.publics * s.known <= s.publics && s'.privates * s.known <= s.privates
  }

  lemma LastingStaysStuck(s: Saga, s': Saga, id: string)
    requires Stuck(s, id) && Lasting(s, s', id) && Accounted(s')
    ensures Stuck(s', id)
  {
  }

  lemma LeavingLasts(s: Saga, s': Saga, id: string)
    requires Leaves(s, s') && id in s.table
    ensures Lasting(s, s', id)
  {
  }

  lemma AllocateLasts(s: Saga, other: string, env: Replies, k: nat, id: string)
    requires Stuck(s, id)
    ensures Lasting(s, Allocate(s, other, env, k).0, id)
  {
    hide SqlExec, AllocatedRow, CreatePrivate, CreatePublic, WriteRow;
    if !Allocate(s, other, env, k).1 {
      FailedAllocationRestores(s, other, env, k);
      assert Leaves(s, Allocate(s, other, env, k).0);
      LeavingLasts(s, Allocate(s, other, env, k).0, id);
    } else {
      var private, public := env(k + 2), env(k + 3);
      CreatedPair(s, private, public);
      var s2 := CreatePublic(CreatePrivate(s, private).0, public).0;
      var row := AllocatedRow(s.table[other], private, public, env(k + 4).now);
      AllocatedKeepsId(s.table[other], private, public, env(k + 4).now);
      WriteRowIs(s2, row, env(k + 4));
    }
  }

  lemma AllocatedKeepsId(m: Mapping, private: Reply, public: Reply, now: Time)
    ensures AllocatedRow(m, private, public, now).id == m.id
  {
  }

  lemma DeletesTakeAway(s: Saga, public: bool, id: Option<string>, r: Reply)
    ensures var s' := DeleteIfSome(s, public, id, r).0;
            s'.table == s.table && s'.publics <= s.publics && s'.privates <= s.privates
  {
  }

  lemma ReleasedKeepsId(m: Mapping)
    ensures forall now :: ReleasedRow(m, now).id == m.id
  {
  }

  lemma ReleaseLasts(s: Saga, other: string, env: Replies, k: nat, id: string)
    requires Stuck(s, id)
    ensures Lasting(s, Release(s, other, env, k).0, id)
  {
    hide WriteRow, DeleteIfSome, ReleasedRow, Accounted, SqlExec;
    if other == id {
      StuckReleaseDoesNothing(s, id, env, k);
    } else if other in s.table {
      AccountedIsKeyed(s);
      var m := s.table[other];
      assert forall now :: ReleasedRow(m, now).id == other by { ReleasedKeepsId(m); }
      var k2 := After(m.ociPublicIp, k + 1);
      var k3 := After(m.ociPrivateIp, k2);
      DeletesTakeAway(s, true, m.ociPublicIp, env(k + 1));
      var s1 := DeleteIfSome(s, true, m.ociPublicIp, env(k + 1)).0;
      DeletesTakeAway(s1, false, m.ociPrivateIp, env(k2));
      var s2 := DeleteIfSome(s1, false, m.ociPrivateIp, env(k2)).0;
      WriteRowIs(s2, ReleasedRow(m, env(k3).now), env(k3));
    }
  }

  lemma OperationLasts(s: Saga, op: SagaOp, id: string)
    requires Stuck(s, id)
    ensures Lasting(s, SagaStep(s, op), id)
  {
    hide Accounted, SqlExec, Allocate, Release, DeleteIfSome;
    match op
    case AllocateFor(other, env) => AllocateLasts(s, other, env, 0, id);
    case ReleaseOf(other, env) => ReleaseLasts(s, other, env, 0, id);
    case ReleaseByIds(public, private, env) =>
      DeletesTakeAway(s, true, public, env(0));
      DeletesTakeAway(DeleteIfSome(s, true, public, env(0)).0, false, private, env(After(public, 0)));
    case Reconfigure(_) =>
    case _ =>
      RowOpsKeepReferences(s, op);
  }

  lemma {:induction false} StuckStaysStuck(s: Saga, ops: seq<SagaOp>, id: string)
    requires Stuck(s, id)
    ensures Stuck(SagaRun(s, ops), id)
    decreases |ops|
  {
    hide SagaStep, Stuck, Lasting, Accounted;
    if ops != [] {
      assert Accounted(s) by { StuckIsAccounted(s, id); }
      SagaStepStaysAccounted(s, ops[0]);
      OperationLasts(s, ops[0], id);
      LastingStaysStuck(s, SagaStep(s, ops[0]), id);
      StuckStaysStuck(SagaStep(s, ops[0]), ops[1..], id);
    }
  }

  lemma StuckIsAccounted(s: Saga, id: string)
    requires Stuck(s, id)
    ensures Accounted(s)
  {
  }

  // A release that failed after changing anything can never be completed: whatever is done next,
  // however often it is tried again, it errs and changes nothing.
  lemma InterruptedReleaseNeverCompletes(
    s: Saga, id: string, env: Replies, k: nat, ops: seq<SagaOp>, env': Replies, k': nat)
    requires Accounted(s) && !Release(s, id, env, k).1 && Release(s, id, env, k).0 != s
    ensures var later := SagaRun(Release(s, id, env, k).0, ops);
            Release(later, id, env', k') == (later, false)
  {
    hide Accounted, Release, SagaRun, Stuck;
    InterruptedReleaseIsStuck(s, id, env, k);
    StuckStaysStuck(Release(s, id, env, k).0, ops, id);
    StuckReleaseDoesNothing(SagaRun(Release(s, id, env, k).0, ops), id, env', k');
  }

  // ---- Removing a row ----

  // The agent's delete removes a row without a call to the cloud: nothing leaks exactly when the
  // row refers to no live resource that is still in sight.
  lemma RemovalLeaksExactly(s: Saga, id: string)
    requires Accounted(s) && id in s.table
    ensures Accounted(s.(table := DeleteStatement(s.table, id))) <==>
            forall r :: RefersTo(s.table[id], r) && r in Live(s) ==> r in LostSight(s)
  {
    var s' := s.(table := DeleteStatement(s.table, id));
    if forall r :: RefersTo(s.table[id], r) && r in Live(s) ==> r in LostSight(s) {
      forall r | r in Live(s') && r !in LostSight(s')
        ensures Referenced(s'.table, r)
      {
        var other :| other in s.table && RefersTo(s.table[other], r);
        assert other in s'.table;
      }
    } else {
      var r :| RefersTo(s.table[id], r) && r in Live(s) && r !in LostSight(s);
      assert !Referenced(s'.table, r);
    }
  }

  // ---- The command line's cleanup ----

  // An error that reads like absence counts as success.
  function CleanUpOne(s: Saga, public: bool, id: Option<string>, r: Reply): (Saga, bool) {
    var (s', ok) := DeleteIfSome(s, public, id, r);
    (s', ok || r.readsAbsent)
  }

  // Both deletes are tried whatever the first one's outcome.
  function CleanUp(s: Saga, m: Mapping, env: Replies, k: nat): (Saga, bool) {
    var (s1, ok1) := CleanUpOne(s, true, m.ociPublicIp, env(k));
    var (s2, ok2) := CleanUpOne(s1, false, m.ociPrivateIp, env(After(m.ociPublicIp, k)));
    (s2, ok1 && ok2)
  }

  // Whatever becomes of the public delete, the private one is tried: when it takes effect the private
  // resource is gone. The cleanup succeeds exactly when each delete did or its error reads as absence.
  lemma BothDeletesAreTried(s: Saga, m: Mapping, env: Replies, k: nat)
    ensures var (s', ok) := CleanUp(s, m, env, k);
            var public, private := env(k), env(After(m.ociPublicIp, k));
            && s'.publics == (if m.ociPublicIp.Some? && TookEffect(public) then s.publics - {m.ociPublicIp.value}
                              else s.publics)
            && s'.privates == (if m.ociPrivateIp.Some? && TookEffect(private) then s.privates - {m.ociPrivateIp.value}
                               else s.privates)
            && (ok <==>
                && (m.ociPublicIp.Some? ==>
                      (m.ociPublicIp.value in s.publics && public.kind == Good) || public.readsAbsent)
                && (m.ociPrivateIp.Some? ==>
                      (m.ociPrivateIp.value in s.privates && private.kind == Good) || private.readsAbsent))
  {
  }

  // A delete did nothing to a live resource in sight, and its error read as if there were none.
  predicate Misread(s: Saga, public: bool, id: Option<string>, r: Reply) {
    && id.Some? && id.value in (if public then s.publics else s.privates) && id.value !in LostSight(s)
    && !TookEffect(r) && r.readsAbsent
  }

  lemma CleaningOne(s: Saga, public: bool, id: Option<string>, r: Reply)
    requires Accounted(s)
    ensures var (s', ok) := CleanUpOne(s, public, id, r);
            && Accounted(s') && s'.table == s.table && LostSight(s') == LostSight(s)
            && (public ==> s'.privates == s.privates) && (!public ==> s'.publics == s.publics)
            && (id.Some? && ok && id.value !in LostSight(s) ==>
                  (id.value in (if public then s'.publics else s'.privates) <==> Misread(s, public, id, r)))
  {
  }

  // Removing a row after its cleanup succeeded leaks exactly when an error was misread.
  lemma CleanedRemovalLeaksExactly(s: Saga, id: string, env: Replies, k: nat)
    requires Accounted(s) && id in s.table && CleanUp(s, s.table[id], env, k).1
    ensures var m := s.table[id];
            var s' := CleanUp(s, m, env, k).0;
            Accounted(s'.(table := DeleteStatement(s'.table, id))) <==>
            !Misread(s, true, m.ociPublicIp, env(k)) && !Misread(s, false, m.ociPrivateIp, env(After(m.ociPublicIp, k)))
  {
    hide CleanUpOne, Referenced;
    var m := s.table[id];
    CleaningOne(s, true, m.ociPublicIp, env(k));
    var s1 := CleanUpOne(s, true, m.ociPublicIp, env(k)).0;
    CleaningOne(s1, false, m.ociPrivateIp, env(After(m.ociPublicIp, k)));
    var s' := CleanUp(s, m, env, k).0;
    RemovalLeaksExactly(s', id);
    if m.ociPublicIp.Some? {
      assert RefersTo(s'.table[id], m.ociPublicIp.value);
    }
    if m.ociPrivateIp.Some? {
      assert RefersTo(s'.table[id], m.ociPrivateIp.value);
    }
    assert RightKinds(s', m);
  }

  // The answers are what a cloud that works gives: what is there is deleted, what is not reads so.
  predicate Works(s: Saga, public: bool, id: Option<string>, r: Reply) {
    id.Some? ==> if id.value in (if public then s.publics else s.privates) then r.kind == Good else r.readsAbsent
  }

  // Unlike a release, a cleanup can always be tried again: from any earlier interruption it
  // succeeds once the cloud works, and then neither resource is left.
  lemma CleanupCanBeRetried(s: Saga, m: Mapping, env: Replies, k: nat)
    requires Works(s, true, m.ociPublicIp, env(k)) && Works(s, false, m.ociPrivateIp, env(After(m.ociPublicIp, k)))
    ensures var (s', ok) := CleanUp(s, m, env, k);
            && ok
            && (m.ociPublicIp.Some? ==> m.ociPublicIp.value !in s'.publics)
            && (m.ociPrivateIp.Some? ==> m.ociPrivateIp.value !in s'.privates)
  {
  }
}
