// Allocating and releasing cloud addresses for a row: a chain of calls that can each fail, with
// compensating deletes.
module Oci {
  import opened Wrappers
  import opened Addresses
  import opened Mappings
  import opened Validation
  import opened Tables

  // The answer to one call. A create that succeeds carries the id and address it made; an error
  // text may read like "not found".
  datatype Reply = Reply(kind: Kind, id: string, ip: Addr, readsAbsent: bool, now: Time)

  type Replies = nat -> Reply

  // `privates` and `publics` are the live resources the agent has created, `created` all it ever
  // created, and `known` every id the cloud will not hand out again. Two history variables hold the
  // resources that the agent has lost sight of: `stranded` those whose compensating delete did not
  // succeed, `unseen` those whose creation was never acknowledged.
  datatype Saga = Saga(
    config: Option<EdgeConfig>,
    table: Table,
    privates: set<string>,
    publics: set<string>,
    created: set<string>,
    known: set<string>,
    stranded: set<string>,
    unseen: set<string>)

  // ---- Calls to the cloud ----

  function CreatePrivate(s: Saga, r: Reply): (Saga, bool) {
    if r.id in s.known || r.kind in {Refused, LostWithoutEffect} then (s, false)
    else
      var s' := s.(privates := s.privates + {r.id}, created := s.created + {r.id}, known := s.known + {r.id});
      if r.kind == Good then (s', true) else (s'.(unseen := s.unseen + {r.id}), false)
  }

  function CreatePublic(s: Saga, r: Reply): (Saga, bool) {
    if r.id in s.known || r.kind in {Refused, LostWithoutEffect} then (s, false)
    else
      var s' := s.(publics := s.publics + {r.id}, created := s.created + {r.id}, known := s.known + {r.id});
      if r.kind == Good then (s', true) else (s'.(unseen := s.unseen + {r.id}), false)
  }

  // Deleting what is not there is an error.
  function DeletePublic(s: Saga, id: string, r: Reply): (Saga, bool) {
    if id in s.publics && r.kind in {Good, LostWithEffect} then (s.(publics := s.publics - {id}), r.kind == Good)
    else (s, false)
  }

  function DeletePrivate(s: Saga, id: string, r: Reply): (Saga, bool) {
    if id in s.privates && r.kind in {Good, LostWithEffect} then (s.(privates := s.privates - {id}), r.kind == Good)
    else (s, false)
  }

  function CompensatePublic(s: Saga, id: string, r: Reply): Saga {
    var s' := DeletePublic(s, id, r).0;
    if id in s'.publics then s'.(stranded := s'.stranded + {id}) else s'
  }

  function CompensatePrivate(s: Saga, id: string, r: Reply): Saga {
    var s' := DeletePrivate(s, id, r).0;
    if id in s'.privates then s'.(stranded := s'.stranded + {id}) else s'
  }

  // ---- Allocate and release ----

  predicate Unallocated(m: Mapping) {
    m.publicIp.None? && m.ociPublicIp.None? && m.ociPrivateIp.None?
  }

  function AllocatedRow(m: Mapping, private: Reply, public: Reply, now: Time): Mapping {
    WithStatus(m.(edgeIp := private.ip, publicIp := Some(public.ip), ociPrivateIp := Some(private.id),
                  ociPublicIp := Some(public.id)), Pending, now)
  }

  function ReleasedRow(m: Mapping, now: Time): Mapping {
    WithStatus(m.(publicIp := None, ociPublicIp := None, ociPrivateIp := None), Status.Disabled, now)
  }

  // One update of a row, which the database or the checks may refuse.
  ghost function WriteRow(s: Saga, m: Mapping, r: Reply): (Saga, bool) {
    var (t, ok) := SqlExec(s.config, s.table, Update(m, r.now));
    if r.kind == Good && ok then (s.(table := t), true) else (s, false)
  }

  // Check the interface, create a private and then a public address, and take the private one back
  // if the public one fails.
  function ForwardingIp(s: Saga, env: Replies, k: nat): (Saga, bool) {
    if env(k).kind != Good then (s, false)
    else
      var (s1, gotPrivate) := CreatePrivate(s, env(k + 1));
      if !gotPrivate then (s1, false)
      else
        var (s2, gotPublic) := CreatePublic(s1, env(k + 2));
        if gotPublic then (s2, true) else (CompensatePrivate(s2, env(k + 1).id, env(k + 3)), false)
  }

  // Write the row, and take both addresses back if that fails.
  ghost function WriteOrUndo(
    s: Saga, row: Mapping, private: string, public: string, env: Replies, k: nat): (Saga, bool)
  {
    var (s', written) := WriteRow(s, row, env(k));
    if written then (s', true)
    else (CompensatePrivate(CompensatePublic(s', public, env(k + 1)), private, env(k + 2)), false)
  }

  // An allocation: read the row, get the addresses, write the row.
  ghost function Allocate(s: Saga, id: string, env: Replies, k: nat): (Saga, bool) {
    if env(k).kind != Good || id !in s.table || !Unallocated(s.table[id]) then (s, false)
    else
      var (s2, got) := ForwardingIp(s, env, k + 1);
      if !got then (s2, false)
      else
        var row := AllocatedRow(s.table[id], env(k + 2), env(k + 3), env(k + 4).now);
        WriteOrUndo(s2, row, env(k + 2).id, env(k + 3).id, env, k + 4)
  }

  function DeleteIfSome(s: Saga, public: bool, id: Option<string>, r: Reply): (Saga, bool) {
    match id
    case None => (s, true)
    case Some(id) => if public then DeletePublic(s, id, r) else DeletePrivate(s, id, r)
  }

  // The position of the next answer: a delete that has nothing to delete makes no call.
  function After(id: Option<string>, k: nat): nat {
    if id.Some? then k + 1 else k
  }

  // The calls of a release by mapping: read the row, delete the public and then the private
  // address, write the row; the first error ends it.
  ghost function Release(s: Saga, id: string, env: Replies, k: nat): (Saga, bool) {
    if env(k).kind != Good || id !in s.table then (s, false)
    else
      var m := s.table[id];
      if m.ociPublicIp.None? && m.ociPrivateIp.None? then (s, false)
      else
        var (s1, ok1) := DeleteIfSome(s, true, m.ociPublicIp, env(k + 1));
        if !ok1 then (s1, false)
        else
          var k2 := After(m.ociPublicIp, k + 1);
          var (s2, ok2) := DeleteIfSome(s1, false, m.ociPrivateIp, env(k2));
          var k3 := After(m.ociPrivateIp, k2);
          if !ok2 then (s2, false)
          else WriteRow(s2, ReleasedRow(m, env(k3).now), env(k3))
  }

  // A release by resource ids touches no row.
  function ReleaseIds(s: Saga, public: Option<string>, private: Option<string>, env: Replies, k: nat): (Saga, bool) {
    if public.None? && private.None? then (s, false)
    else
      var (s1, ok) := DeleteIfSome(s, true, public, env(k));
      if ok then DeleteIfSome(s1, false, private, env(After(public, k))) else (s1, false)
  }

  // ---- What every serial run keeps ----

  predicate RefersTo(m: Mapping, r: string) {
    m.ociPublicIp == Some(r) || m.ociPrivateIp == Some(r)
  }

  function Live(s: Saga): set<string> {
    s.privates + s.publics
  }

  function LostSight(s: Saga): set<string> {
    s.stranded + s.unseen
  }

  ghost predicate Referenced(t: Table, r: string) {
    exists id :: id in t && RefersTo(t[id], r)
  }

  // A row's public address is never a live private one, nor the other way round.
  predicate RightKinds(s: Saga, m: Mapping) {
    && (m.ociPublicIp.Some? ==> m.ociPublicIp.value !in s.privates)
    && (m.ociPrivateIp.Some? ==> m.ociPrivateIp.value !in s.publics)
  }

  // Every live resource is referenced unless the agent lost sight of it, and no resource the agent
  // created is referenced by two rows.
  ghost predicate Accounted(s: Saga) {
    && Keyed(s.table)
    && s.privates !! s.publics
    && Live(s) + LostSight(s) <= s.created <= s.known
    && (forall id, r :: id in s.table && RefersTo(s.table[id], r) ==> r in s.known)
    && (forall id :: id in s.table ==> RightKinds(s, s.table[id]))
    && (forall r :: r in Live(s) && r !in LostSight(s) ==> Referenced(s.table, r))
    && (forall a, b, r :: a in s.table && b in s.table && a != b && r in s.created ==>
          !(RefersTo(s.table[a], r) && RefersTo(s.table[b], r)))
  }

  // The same rows, and no live resource that the agent did not have before or lose sight of.
  ghost predicate Leaves(s: Saga, s': Saga) {
    && s'.table == s.table && s'.config == s.config
    && s.created <= s'.created && s.known <= s'.known && s'.created - s.created !! s.known
    && s'.created <= s'.known
    && s'.privates !! s'.publics && s'.privates * s.known <= s.privates && s'.publics * s.known <= s.publics
    && Live(s') <= s'.created && LostSight(s) <= LostSight(s') <= s'.created
    && Live(s') - LostSight(s') <= Live(s)
  }

  lemma LeavingStaysAccounted(s: Saga, s': Saga)
    requires Accounted(s) && Leaves(s, s')
    ensures Accounted(s')
  {
    forall a, b, r | a in s.table && b in s.table && a != b && r in s'.created
      ensures !(RefersTo(s.table[a], r) && RefersTo(s.table[b], r))
    {
      assert r in s.created || r !in s.known;
    }
  }

  // Rewriting one row, whose old resources are gone, to refer to exactly the newly made ones.
  lemma RewriteStaysAccounted(s: Saga, m: Mapping, row: Mapping, made: set<string>)
    requires Keyed(s.table) && m.id in s.table && s.table[m.id] == m && row.id == m.id
    requires s.privates !! s.publics && Live(s) + LostSight(s) <= s.created <= s.known && made <= s.known
    requires forall id, r :: id in s.table && RefersTo(s.table[id], r) ==> r in s.known && r !in made
    requires forall a, b, r :: a in s.table && b in s.table && a != b && r in s.created ==>
               !(RefersTo(s.table[a], r) && RefersTo(s.table[b], r))
    requires forall r :: r in Live(s) && r !in LostSight(s) ==> r in made || Referenced(s.table, r)
    requires forall r :: RefersTo(row, r) <==> r in made
    requires forall r :: RefersTo(m, r) ==> r !in Live(s)
    requires RightKinds(s, row) && forall id :: id in s.table ==> RightKinds(s, s.table[id])
    ensures Accounted(s.(table := s.table[m.id := row]))
  {
    var s' := s.(table := s.table[m.id := row]);
    forall r | r in Live(s') && r !in LostSight(s')
      ensures Referenced(s'.table, r)
    {
      if r in made {
        assert RefersTo(s'.table[m.id], r);
      } else {
        var id :| id in s.table && RefersTo(s.table[id], r);
        assert id != m.id;
        assert RefersTo(s'.table[id], r);
      }
    }
  }

  lemma WriteRowIs(s: Saga, m: Mapping, r: Reply)
    ensures WriteRow(s, m, r).1 ==>
              && m.id in s.table
              && WriteRow(s, m, r).0 == s.(table := s.table[m.id := m.(createdAt := s.table[m.id].createdAt)])
    ensures !WriteRow(s, m, r).1 ==> WriteRow(s, m, r).0 == s
  {
  }

  // The two creates of an allocation, once both have succeeded.
  lemma CreatedPair(s: Saga, private: Reply, public: Reply)
    requires Accounted(s) && CreatePrivate(s, private).1 && CreatePublic(CreatePrivate(s, private).0, public).1
    ensures var s2 := CreatePublic(CreatePrivate(s, private).0, public).0;
            && private.id !in s.known && public.id !in s.known && private.id != public.id
            && s2 == s.(privates := s.privates + {private.id}, publics := s.publics + {public.id},
                        created := s.created + {private.id} + {public.id},
                        known := s.known + {private.id} + {public.id})
  {
  }

  lemma WrittenAllocationIsAccounted(s: Saga, id: string, private: Reply, public: Reply, now: Time, created: Time)
    requires Accounted(s) && id in s.table && Unallocated(s.table[id])
    requires CreatePrivate(s, private).1 && CreatePublic(CreatePrivate(s, private).0, public).1
    ensures var s2 := CreatePublic(CreatePrivate(s, private).0, public).0;
            var row := AllocatedRow(s.table[id], private, public, now).(createdAt := created);
            Accounted(s2.(table := s2.table[id := row]))
  {
    hide CreatePrivate, CreatePublic;
    CreatedPair(s, private, public);
    var s2 := CreatePublic(CreatePrivate(s, private).0, public).0;
    var row := AllocatedRow(s.table[id], private, public, now).(createdAt := created);
    RewriteStaysAccounted(s2, s.table[id], row, {private.id, public.id});
  }

  // Nothing is left behind but what the agent has just lost sight of.
  ghost predicate Undone(s: Saga, s': Saga) {
    && Leaves(s, s')
    && (LostSight(s') == LostSight(s) ==> s'.privates == s.privates && s'.publics == s.publics)
  }

  predicate TookEffect(r: Reply) {
    r.kind in {Good, LostWithEffect}
  }

  // Cloud and rows are as they were; only the ids that were used up are not.
  predicate Restored(s: Saga, s': Saga) {
    s' == s.(created := s'.created, known := s'.known)
  }

  lemma FailedPrivateIsUndone(s: Saga, private: Reply)
    requires Accounted(s) && !CreatePrivate(s, private).1
    ensures Undone(s, CreatePrivate(s, private).0)
    ensures private.kind != LostWithEffect ==> Restored(s, CreatePrivate(s, private).0)
  {
  }

  lemma FailedPublicIsUndone(s: Saga, private: Reply, public: Reply, r: Reply)
    requires Accounted(s) && CreatePrivate(s, private).1 && !CreatePublic(CreatePrivate(s, private).0, public).1
    ensures var s' := CompensatePrivate(CreatePublic(CreatePrivate(s, private).0, public).0, private.id, r);
            && Undone(s, s')
            && (public.kind != LostWithEffect && TookEffect(r) ==> Restored(s, s'))
  {
  }

  lemma FailedWriteIsUndone(s: Saga, private: Reply, public: Reply, r: Reply, r': Reply)
    requires Accounted(s) && CreatePrivate(s, private).1 && CreatePublic(CreatePrivate(s, private).0, public).1
    ensures var s2 := CreatePublic(CreatePrivate(s, private).0, public).0;
            && Undone(s, CompensatePrivate(CompensatePublic(s2, public.id, r), private.id, r'))
            && (TookEffect(r) && TookEffect(r') ==>
                  Restored(s, CompensatePrivate(CompensatePublic(s2, public.id, r), private.id, r')))
  {
    CreatedPair(s, private, public);
    hide CreatePrivate, CreatePublic;
    var s2 := CreatePublic(CreatePrivate(s, private).0, public).0;
    var s' := CompensatePrivate(CompensatePublic(s2, public.id, r), private.id, r');
    if LostSight(s') == LostSight(s) {
      assert public.id in LostSight(s') || s'.publics == s.publics;
      assert private.id in LostSight(s') || s'.privates == s.privates;
    }
  }

  // Both creates were answered, and every compensating delete that was called for took effect.
  predicate Compensated(s: Saga, env: Replies, k: nat) {
    && env(k + 2).kind != LostWithEffect && env(k + 3).kind != LostWithEffect
    && (if CreatePublic(CreatePrivate(s, env(k + 2)).0, env(k + 3)).1
        then TookEffect(env(k + 5)) && TookEffect(env(k + 6)) else TookEffect(env(k + 4)))
  }

  // A failed allocation changes no row, and leaves live only what was live before or what the agent
  // has just lost sight of; when its compensations take effect, cloud and rows are as they were.
  lemma FailedAllocationRestores(s: Saga, id: string, env: Replies, k: nat)
    requires Accounted(s) && !Allocate(s, id, env, k).1
    ensures Undone(s, Allocate(s, id, env, k).0)
    ensures Compensated(s, env, k) ==> Restored(s, Allocate(s, id, env, k).0)
  {
    hide SqlExec, AllocatedRow, CompensatePublic, CompensatePrivate, WriteRow;
    if env(k).kind != Good || id !in s.table || !Unallocated(s.table[id]) || env(k + 1).kind != Good {
    } else if !CreatePrivate(s, env(k + 2)).1 {
      FailedPrivateIsUndone(s, env(k + 2));
    } else if !CreatePublic(CreatePrivate(s, env(k + 2)).0, env(k + 3)).1 {
      FailedPublicIsUndone(s, env(k + 2), env(k + 3), env(k + 4));
    } else {
      hide Accounted, Undone, Restored, TookEffect, CreatePrivate, CreatePublic;
      var s2 := CreatePublic(CreatePrivate(s, env(k + 2)).0, env(k + 3)).0;
      WriteRowIs(s2, AllocatedRow(s.table[id], env(k + 2), env(k + 3), env(k + 4).now), env(k + 4));
      FailedWriteIsUndone(s, env(k + 2), env(k + 3), env(k + 5), env(k + 6));
    }
  }

  lemma AllocateStaysAccounted(s: Saga, id: string, env: Replies, k: nat)
    requires Accounted(s)
    ensures Accounted(Allocate(s, id, env, k).0)
  {
    if !Allocate(s, id, env, k).1 {
      hide Accounted, Leaves, Allocate;
      FailedAllocationRestores(s, id, env, k);
      LeavingStaysAccounted(s, Allocate(s, id, env, k).0);
    } else {
      hide SqlExec, AllocatedRow, CreatePrivate, CreatePublic, Accounted;
      var private, public, now := env(k + 2), env(k + 3), env(k + 4).now;
      var s2 := CreatePublic(CreatePrivate(s, private).0, public).0;
      WriteRowIs(s2, AllocatedRow(s.table[id], private, public, now), env(k + 4));
      AllocationWrites(s, id, private, public, now, env(k + 4));
    }
  }

  lemma AllocationWrites(s: Saga, id: string, private: Reply, public: Reply, now: Time, r: Reply)
    requires Accounted(s) && id in s.table && Unallocated(s.table[id])
    requires CreatePrivate(s, private).1 && CreatePublic(CreatePrivate(s, private).0, public).1
    requires WriteRow(CreatePublic(CreatePrivate(s, private).0, public).0,
                      AllocatedRow(s.table[id], private, public, now), r).1
    ensures Accounted(WriteRow(CreatePublic(CreatePrivate(s, private).0, public).0,
                               AllocatedRow(s.table[id], private, public, now), r).0)
  {
    hide SqlExec, WriteRow;
    CreatedPair(s, private, public);
    var s2 := CreatePublic(CreatePrivate(s, private).0, public).0;
    WriteRowIs(s2, AllocatedRow(s.table[id], private, public, now), r);
    WrittenAllocationIsAccounted(s, id, private, public, now, s.table[id].createdAt);
  }

  // Deleting only takes away.
  lemma DeletingLeaves(s: Saga, public: bool, id: Option<string>, r: Reply)
    requires Accounted(s)
    ensures var (s', ok) := DeleteIfSome(s, public, id, r);
            && Accounted(s') && s'.table == s.table && s'.config == s.config
            && Live(s') <= Live(s)
            && (ok && id.Some? ==> id.value !in Live(s'))
  {
  }

  // A row whose resources are gone may drop its references.
  lemma DroppingStaysAccounted(s: Saga, m: Mapping, row: Mapping)
    requires Accounted(s) && m.id in s.table && s.table[m.id] == m && row.id == m.id
    requires row.ociPublicIp.None? && row.ociPrivateIp.None?
    requires forall r :: RefersTo(m, r) ==> r !in Live(s)
    ensures Accounted(s.(table := s.table[m.id := row]))
  {
    RewriteStaysAccounted(s, m, row, {});
  }

  lemma ReleaseStaysAccounted(s: Saga, id: string, env: Replies, k: nat)
    requires Accounted(s)
    ensures Accounted(Release(s, id, env, k).0)
  {
    hide Accounted, WriteRow, DeleteIfSome, Live;
    if id in s.table {
      var m := s.table[id];
      DeletingLeaves(s, true, m.ociPublicIp, env(k + 1));
      var s1 := DeleteIfSome(s, true, m.ociPublicIp, env(k + 1)).0;
      var k2 := After(m.ociPublicIp, k + 1);
      DeletingLeaves(s1, false, m.ociPrivateIp, env(k2));
      var s2 := DeleteIfSome(s1, false, m.ociPrivateIp, env(k2)).0;
      var k3 := After(m.ociPrivateIp, k2);
      WriteRowIs(s2, ReleasedRow(m, env(k3).now), env(k3));
      if Release(s, id, env, k).1 {
        assert m.id == id by { AccountedIsKeyed(s); }
        DroppingStaysAccounted(s2, m, ReleasedRow(m, env(k3).now).(createdAt := m.createdAt));
      }
    }
  }

  // ---- What a call that succeeds leaves ----

  // The row has its addresses: edge and private id from the one reply, public address and id from
  // the other. It is pending, and everything else of it is as it was.
  predicate AllocatedFrom(was: Mapping, row: Mapping, private: Reply, public: Reply) {
    && row.edgeIp == private.ip && row.ociPrivateIp == Some(private.id)
    && row.publicIp == Some(public.ip) && row.ociPublicIp == Some(public.id)
    && row.status == Pending && row.enabled == was.enabled && SameTerms(was, row) && SameHealth(was, row)
  }

  // The row has no cloud address left. It is disabled in status, and everything else of it, its
  // switch and its edge address included, is as it was.
  predicate ReleasedFrom(was: Mapping, row: Mapping) {
    && row.publicIp == None && row.ociPublicIp == None && row.ociPrivateIp == None && row.edgeIp == was.edgeIp
    && row.status == Status.Disabled && row.enabled == was.enabled && SameTerms(was, row) && SameHealth(was, row)
  }

  // The whole change of an allocation that succeeds.
  ghost predicate AllocationDone(s: Saga, s': Saga, id: string, private: Reply, public: Reply, now: Time) {
    && id in s.table && OnlyRowChanged(s.table, s'.table, id)
    && AllocatedFrom(s.table[id], s'.table[id], private, public) && s'.table[id].updatedAt == now
    && s'.privates == s.privates + {private.id} && s'.publics == s.publics + {public.id} && s'.config == s.config
  }

  // The whole change of a release that succeeds: what the row named was live and is no longer.
  ghost predicate ReleaseDone(s: Saga, s': Saga, id: string, now: Time) {
    && id in s.table && OnlyRowChanged(s.table, s'.table, id)
    && ReleasedFrom(s.table[id], s'.table[id]) && s'.table[id].updatedAt == now
    && TakenFrom(s.publics, s'.publics, s.table[id].ociPublicIp)
    && TakenFrom(s.privates, s'.privates, s.table[id].ociPrivateIp) && s'.config == s.config
  }

  predicate TakenFrom(before: set<string>, after: set<string>, id: Option<string>) {
    match id
    case None => after == before
    case Some(id) => id in before && after == before - {id}
  }

  lemma AllocationGivesTheRow(s: Saga, id: string, env: Replies, k: nat)
    requires Keyed(s.table) && Allocate(s, id, env, k).1
    ensures AllocationDone(s, Allocate(s, id, env, k).0, id, env(k + 2), env(k + 3), env(k + 4).now)
  {
    hide SqlExec, CompensatePrivate, CompensatePublic, WriteRow;
    var m := s.table[id];
    var row := AllocatedRow(m, env(k + 2), env(k + 3), env(k + 4).now);
    WriteRowIs(ForwardingIp(s, env, k + 1).0, row, env(k + 4));
    assert row.id == id;
  }

  lemma ReleaseTakesTheRow(s: Saga, id: string, env: Replies, k: nat)
    requires Keyed(s.table) && Release(s, id, env, k).1
    ensures var m := s.table[id];
            var last := env(After(m.ociPrivateIp, After(m.ociPublicIp, k + 1)));
            ReleaseDone(s, Release(s, id, env, k).0, id, last.now)
  {
    hide SqlExec, WriteRow;
    var m := s.table[id];
    var k2 := After(m.ociPublicIp, k + 1);
    var k3 := After(m.ociPrivateIp, k2);
    var s1 := DeleteIfSome(s, true, m.ociPublicIp, env(k + 1)).0;
    var row := ReleasedRow(m, env(k3).now);
    WriteRowIs(DeleteIfSome(s1, false, m.ociPrivateIp, env(k2)).0, row, env(k3));
    assert row.id == id;
  }

  // A release by ids that succeeds leaves neither resource.
  lemma ReleaseIdsTakesBoth(s: Saga, public: Option<string>, private: Option<string>, env: Replies, k: nat)
    requires ReleaseIds(s, public, private, env, k).1
    ensures var s' := ReleaseIds(s, public, private, env, k).0;
            && s'.table == s.table && (public.Some? || private.Some?)
            && TakenFrom(s.publics, s'.publics, public) && TakenFrom(s.privates, s'.privates, private)
  {
  }

  // A release by ids that fails has deleted the private address only after the public one.
  lemma ReleaseIdsInOrder(s: Saga, public: Option<string>, private: Option<string>, env: Replies, k: nat)
    ensures var s' := ReleaseIds(s, public, private, env, k).0;
            && s'.table == s.table && (s'.privates != s.privates ==> TakenFrom(s.publics, s'.publics, public))
  {
  }

  // A release by mapping likewise, and it writes the row only after both.
  lemma ReleaseInOrder(s: Saga, id: string, env: Replies, k: nat)
    requires id in s.table
    ensures var s' := Release(s, id, env, k).0;
            && (s'.privates != s.privates ==> TakenFrom(s.publics, s'.publics, s.table[id].ociPublicIp))
            && (s'.table != s.table ==> TakenFrom(s.publics, s'.publics, s.table[id].ociPublicIp)
                                        && TakenFrom(s.privates, s'.privates, s.table[id].ociPrivateIp))
  {
    hide SqlExec;
  }

  // A release writes the row without its cloud address, or nothing.
  lemma ReleaseWrites(s: Saga, id: string, env: Replies, k: nat)
    requires Keyed(s.table)
    ensures var t := Release(s, id, env, k).0.table;
            || t == s.table
            || (id in s.table && exists now :: t == s.table[id := ReleasedRow(s.table[id], now)])
  {
    hide WriteRow, DeleteIfSome;
    if id in s.table {
      var m := s.table[id];
      var k2 := After(m.ociPublicIp, k + 1);
      var k3 := After(m.ociPrivateIp, k2);
      CloudKeepsRows(s, env, k + 1, true, m.ociPublicIp);
      var s1 := DeleteIfSome(s, true, m.ociPublicIp, env(k + 1)).0;
      CloudKeepsRows(s1, env, k2, false, m.ociPrivateIp);
      var row := ReleasedRow(m, env(k3).now);
      WriteRowIs(DeleteIfSome(s1, false, m.ociPrivateIp, env(k2)).0, row, env(k3));
      assert row.id == id && row.(createdAt := m.createdAt) == row;
    }
  }

  lemma AccountedIsKeyed(s: Saga)
    requires Accounted(s)
    ensures Keyed(s.table)
  {
  }

  lemma ReleaseIdsStaysAccounted(s: Saga, public: Option<string>, private: Option<string>, env: Replies, k: nat)
    requires Accounted(s)
    ensures Accounted(ReleaseIds(s, public, private, env, k).0)
  {
    hide Accounted, DeleteIfSome, Live;
    DeletingLeaves(s, true, public, env(k));
    DeletingLeaves(DeleteIfSome(s, true, public, env(k)).0, false, private, env(After(public, k)));
  }

  // ---- Whole runs ----

  // What the agent does to rows, configuration and cloud: a created or switched row carries no new
  // references.
  datatype SagaOp =
    | Create(m: Mapping)
    | Switch(id: string, enabled: bool, now: Time)
    | Reconfigure(config: EdgeConfig)
    | AllocateFor(id: string, env: Replies)
    | ReleaseOf(id: string, env: Replies)
    | ReleaseByIds(public: Option<string>, private: Option<string>, env: Replies)

  ghost function SagaStep(s: Saga, op: SagaOp): Saga {
    match op
    case Create(m) =>
      s.(table := SqlExec(s.config, s.table, Insert(m.(ociPublicIp := None, ociPrivateIp := None))).0)
    case Switch(id, enabled, now) => s.(table := SqlExec(s.config, s.table, SetEnabled(id, enabled, now)).0)
    case Reconfigure(config) => if ValidateEdgeConfig(config).Pass? then s.(config := Some(config)) else s
    case AllocateFor(id, env) => Allocate(s, id, env, 0).0
    case ReleaseOf(id, env) => Release(s, id, env, 0).0
    case ReleaseByIds(public, private, env) => ReleaseIds(s, public, private, env, 0).0
  }

  ghost function SagaRun(s: Saga, ops: seq<SagaOp>): Saga
    decreases |ops|
  {
    if ops == [] then s else SagaRun(SagaStep(s, ops[0]), ops[1..])
  }

  // The table changed only in what does not concern the cloud.
  ghost predicate SameReferences(t: Table, u: Table) {
    && Keyed(u)
    && (forall id :: id in t ==> id in u)
    && (forall id :: id in u && id !in t ==> u[id].ociPublicIp.None? && u[id].ociPrivateIp.None?)
    && (forall id :: id in t && id in u ==>
          u[id].ociPublicIp == t[id].ociPublicIp && u[id].ociPrivateIp == t[id].ociPrivateIp)
  }

  lemma SameReferencesStayAccounted(s: Saga, u: Table)
    requires Accounted(s) && SameReferences(s.table, u)
    ensures Accounted(s.(table := u))
  {
    var s' := s.(table := u);
    forall id, r | id in u && RefersTo(u[id], r)
      ensures id in s.table && RefersTo(s.table[id], r)
    {
    }
    forall r | r in Live(s') && r !in LostSight(s')
      ensures Referenced(u, r)
    {
      assert Referenced(s.table, r);
      var id :| id in s.table && RefersTo(s.table[id], r);
      assert RefersTo(u[id], r);
    }
  }

  lemma RowOpsKeepReferences(s: Saga, op: SagaOp)
    requires Accounted(s) && (op.Create? || op.Switch?)
    ensures SameReferences(s.table, SagaStep(s, op).table)
  {
    hide Writable, Admits;
  }

  lemma ReconfiguringStaysAccounted(s: Saga, config: Option<EdgeConfig>)
    requires Accounted(s)
    ensures Accounted(s.(config := config))
  {
  }

  lemma SagaStepStaysAccounted(s: Saga, op: SagaOp)
    requires Accounted(s)
    ensures Accounted(SagaStep(s, op))
  {
    hide Accounted, SqlExec, Allocate, Release, ReleaseIds, ValidateEdgeConfig;
    match op
    case Reconfigure(config) => ReconfiguringStaysAccounted(s, SagaStep(s, op).config);
    case AllocateFor(id, env) => AllocateStaysAccounted(s, id, env, 0);
    case ReleaseOf(id, env) => ReleaseStaysAccounted(s, id, env, 0);
    case ReleaseByIds(public, private, env) => ReleaseIdsStaysAccounted(s, public, private, env, 0);
    case _ =>
      RowOpsKeepReferences(s, op);
      SameReferencesStayAccounted(s, SagaStep(s, op).table);
  }

  // The rows pass the application's check against each other, whatever the configuration has become.
  ghost predicate SoundRows(s: Saga) {
    Keyed(s.table) && Exclusive(s.table) && PortsReady(s.table)
  }

  lemma WriteRowStaysSound(s: Saga, m: Mapping, r: Reply)
    requires SoundRows(s)
    ensures SoundRows(WriteRow(s, m, r).0)
  {
    hide SqlExec, Exclusive, PortsReady;
    SqlExecKeepsExclusive(s.config, s.table, Update(m, r.now));
  }

  lemma CloudKeepsRows(s: Saga, env: Replies, k: nat, public: bool, id: Option<string>)
    ensures ForwardingIp(s, env, k).0.table == s.table && ForwardingIp(s, env, k).0.config == s.config
    ensures DeleteIfSome(s, public, id, env(k)).0.table == s.table
    ensures DeleteIfSome(s, public, id, env(k)).0.config == s.config
  {
  }

  lemma SagaStepStaysSound(s: Saga, op: SagaOp)
    requires SoundRows(s)
    ensures SoundRows(SagaStep(s, op))
  {
    hide SqlExec, Exclusive, PortsReady, ForwardingIp, DeleteIfSome, WriteRow, AllocatedRow, ReleasedRow;
    match op
    case Create(m) =>
      SqlExecKeepsExclusive(s.config, s.table, Insert(m.(ociPublicIp := None, ociPrivateIp := None)));
    case Switch(id, enabled, now) =>
      SqlExecKeepsExclusive(s.config, s.table, SetEnabled(id, enabled, now));
    case AllocateFor(id, env) =>
      if id in s.table {
        CloudKeepsRows(s, env, 1, false, None);
        WriteRowStaysSound(ForwardingIp(s, env, 1).0, AllocatedRow(s.table[id], env(2), env(3), env(4).now), env(4));
      }
    case ReleaseOf(id, env) =>
      if id in s.table {
        var m := s.table[id];
        var k2 := After(m.ociPublicIp, 1);
        var k3 := After(m.ociPrivateIp, k2);
        CloudKeepsRows(s, env, 1, true, m.ociPublicIp);
        var s1 := DeleteIfSome(s, true, m.ociPublicIp, env(1)).0;
        CloudKeepsRows(s1, env, k2, false, m.ociPrivateIp);
        WriteRowStaysSound(DeleteIfSome(s1, false, m.ociPrivateIp, env(k2)).0, ReleasedRow(m, env(k3).now), env(k3));
      }
    case ReleaseByIds(public, private, env) =>
      CloudKeepsRows(s, env, 0, true, public);
      CloudKeepsRows(DeleteIfSome(s, true, public, env(0)).0, env, After(public, 0), false, private);
    case Reconfigure(_) =>
  }

  lemma {:induction false} SagaRunStaysSound(s: Saga, ops: seq<SagaOp>)
    requires SoundRows(s)
    ensures SoundRows(SagaRun(s, ops))
    decreases |ops|
  {
    hide SagaStep, SoundRows;
    if ops != [] {
      SagaStepStaysSound(s, ops[0]);
      SagaRunStaysSound(SagaStep(s, ops[0]), ops[1..]);
    }
  }

  // After any serial run, whatever fails in it, every live resource the agent made is referenced by
  // exactly one row, unless its compensating delete failed or its creation was never acknowledged.
  lemma {:induction false} NothingLeaks(s: Saga, ops: seq<SagaOp>, r: string)
    requires Accounted(s)
    ensures var end := SagaRun(s, ops);
            && Accounted(end)
            && (r in Live(end) && r !in LostSight(end) ==>
                  exists id :: id in end.table && RefersTo(end.table[id], r)
                               && forall other :: other in end.table && RefersTo(end.table[other], r) ==> other == id)
    decreases |ops|
  {
    hide SagaStep;
    if ops != [] {
      SagaStepStaysAccounted(s, ops[0]);
      NothingLeaks(SagaStep(s, ops[0]), ops[1..], r);
    }
  }
}
