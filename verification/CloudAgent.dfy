// The agent's cloud calls as they run, over the SQL store.
module CloudAgents {
  import opened Wrappers
  import opened Mappings
  import opened RowCodec
  import opened Tables
  import opened SqliteStores
  import opened Oci
  import opened OciCleanup

  // The live resources and the used-up ids are the cloud's; `env` answers the calls in the order
  // they are made.
  class CloudAgent {
    const store: SqliteStore
    const env: Replies
    var privates: set<string>
    var publics: set<string>
    var known: set<string>
    ghost var created: set<string>
    ghost var stranded: set<string>
    ghost var unseen: set<string>
    var asked: nat

    constructor (store: SqliteStore, env: Replies, known: set<string>)
      requires store.Valid()
      ensures this.store == store && this.env == env && asked == 0
      ensures State() == Saga(store.config, store.Contents(), {}, {}, {}, known, {}, {})
    {
      this.store, this.env, this.known := store, env, known;
      privates, publics, created, stranded, unseen, asked := {}, {}, {}, {}, {}, 0;
    }

    ghost function State(): Saga
      reads this, store
      requires store.Valid()
    {
      Saga(store.config, store.Contents(), privates, publics, created, known, stranded, unseen)
    }

    method Ask() returns (r: Reply)
      requires store.Valid()
      modifies this`asked
      ensures r == env(old(asked)) && asked == old(asked) + 1
    {
      r := env(asked);
      asked := asked + 1;
    }

    method CreatePrivateIp() returns (r: Reply, ok: bool)
      requires store.Valid()
      modifies this
      ensures store.Valid() && r == env(old(asked)) && asked == old(asked) + 1
      ensures (State(), ok) == CreatePrivate(old(State()), r)
    {
      r := Ask();
      ok := false;
      if r.id !in known && r.kind != Refused && r.kind != LostWithoutEffect {
        privates, created, known := privates + {r.id}, created + {r.id}, known + {r.id};
        ok := r.kind == Good;
        if !ok {
          unseen := unseen + {r.id};
        }
      }
    }

    method CreateReservedPublicIp() returns (r: Reply, ok: bool)
      requires store.Valid()
      modifies this
      ensures store.Valid() && r == env(old(asked)) && asked == old(asked) + 1
      ensures (State(), ok) == CreatePublic(old(State()), r)
    {
      r := Ask();
      ok := false;
      if r.id !in known && r.kind != Refused && r.kind != LostWithoutEffect {
        publics, created, known := publics + {r.id}, created + {r.id}, known + {r.id};
        ok := r.kind == Good;
        if !ok {
          unseen := unseen + {r.id};
        }
      }
    }

    method DeletePublicIp(id: string) returns (r: Reply, ok: bool)
      requires store.Valid()
      modifies this`asked, this`publics
      ensures store.Valid() && r == env(old(asked)) && asked == old(asked) + 1
      ensures (State(), ok) == DeletePublic(old(State()), id, r)
    {
      r := Ask();
      ok := id in publics && r.kind == Good;
      if id in publics && (r.kind == Good || r.kind == LostWithEffect) {
        publics := publics - {id};
      }
    }

    method DeletePrivateIp(id: string) returns (r: Reply, ok: bool)
      requires store.Valid()
      modifies this`asked, this`privates
      ensures store.Valid() && r == env(old(asked)) && asked == old(asked) + 1
      ensures (State(), ok) == DeletePrivate(old(State()), id, r)
    {
      r := Ask();
      ok := id in privates && r.kind == Good;
      if id in privates && (r.kind == Good || r.kind == LostWithEffect) {
        privates := privates - {id};
      }
    }

    // A compensating delete; its result is dropped.
    method UndoPublicIp(id: string)
      requires store.Valid()
      modifies this
      ensures store.Valid() && asked == old(asked) + 1
      ensures State() == CompensatePublic(old(State()), id, env(old(asked)))
    {
      var _, _ := DeletePublicIp(id);
      if id in publics {
        stranded := stranded + {id};
      }
    }

    method UndoPrivateIp(id: string)
      requires store.Valid()
      modifies this
      ensures store.Valid() && asked == old(asked) + 1
      ensures State() == CompensatePrivate(old(State()), id, env(old(asked)))
    {
      var _, _ := DeletePrivateIp(id);
      if id in privates {
        stranded := stranded + {id};
      }
    }

    method FetchRow(id: string) returns (row: Option<Mapping>)
      requires store.Valid()
      modifies this`asked
      ensures asked == old(asked) + 1
      ensures row == if env(old(asked)).kind == Good && id in store.Contents() then Some(store.Contents()[id]) else None
      ensures row.Some? ==> row.value.id == id && WellFormedId(id)
    {
      var r := Ask();
      row := None;
      if r.kind == Good {
        var found := store.GetMapping(id);
        if found.Success? {
          row := Some(found.value);
        }
      }
    }

    method SaveRow(m: Mapping, r: Reply) returns (ok: bool)
      requires store.Valid() && WellFormedId(m.id)
      modifies store`rows
      ensures store.Valid()
      ensures (State(), ok) == WriteRow(old(State()), m, r)
    {
      hide Writable, Admits;
      ok := false;
      if r.kind == Good {
        var written := store.UpdateMapping(m, r.now);
        ok := written.Pass?;
      }
    }

    method AllocateForwardingIp() returns (private: Reply, public: Reply, ok: bool)
      requires store.Valid()
      modifies this
      ensures store.Valid()
      ensures (State(), ok) == ForwardingIp(old(State()), env, old(asked))
      ensures ok ==> asked == old(asked) + 3 && private == env(old(asked) + 1) && public == env(old(asked) + 2)
    {
      hide CreatePrivate, CreatePublic, CompensatePrivate;
      ok := false;
      var checked := Ask();
      private, public := checked, checked;
      if checked.kind != Good {
        return;
      }
      private, ok := CreatePrivateIp();
      if !ok {
        return;
      }
      public, ok := CreateReservedPublicIp();
      if !ok {
        UndoPrivateIp(private.id);
      }
    }

    method SaveOrUndo(row: Mapping, private: string, public: string, r: Reply) returns (ok: bool)
      requires store.Valid() && WellFormedId(row.id) && asked > 0 && r == env(asked - 1)
      modifies this, store`rows
      ensures store.Valid()
      ensures (State(), ok) == WriteOrUndo(old(State()), row, private, public, env, old(asked) - 1)
    {
      hide WriteRow, CompensatePrivate, CompensatePublic;
      ok := SaveRow(row, r);
      if !ok {
        UndoPublicIp(public);
        UndoPrivateIp(private);
      }
    }

    method OciAllocate(id: string) returns (ok: bool)
      requires store.Valid()
      modifies this, store`rows
      ensures store.Valid()
      ensures (State(), ok) == Allocate(old(State()), id, env, old(asked))
      ensures ok ==>
                var k := old(asked);
                AllocationDone(old(State()), State(), id, env(k + 2), env(k + 3), env(k + 4).now)
    {
      hide WriteOrUndo, ForwardingIp, AllocatedRow, AllocationDone, SqliteStore.Valid, SqliteStore.Contents;
      ghost var start, first := State(), asked;
      if Allocate(start, id, env, first).1 {
        AllocationGivesTheRow(start, id, env, first);
      }
      ok := false;
      ghost var before := State();
      var row := FetchRow(id);
      assert State() == before;
      if row.None? || row.value.publicIp.Some? || row.value.ociPublicIp.Some? || row.value.ociPrivateIp.Some? {
        return;
      }
      var private, public, got := AllocateForwardingIp();
      ghost var between := State();
      assert (between, got) == ForwardingIp(before, env, old(asked) + 1);
      if !got {
        return;
      }
      var r := Ask();
      AllocatedKeepsId(row.value, private, public, r.now);
      ok := SaveOrUndo(AllocatedRow(row.value, private, public, r.now), private.id, public.id, r);
    }

    method DeletePublicIfSome(id: Option<string>) returns (ok: bool)
      requires store.Valid()
      modifies this`asked, this`publics
      ensures store.Valid() && asked == After(id, old(asked))
      ensures (State(), ok) == DeleteIfSome(old(State()), true, id, env(old(asked)))
    {
      ok := true;
      if id.Some? {
        var _, deleted := DeletePublicIp(id.value);
        ok := deleted;
      }
    }

    method DeletePrivateIfSome(id: Option<string>) returns (ok: bool)
      requires store.Valid()
      modifies this`asked, this`privates
      ensures store.Valid() && asked == After(id, old(asked))
      ensures (State(), ok) == DeleteIfSome(old(State()), false, id, env(old(asked)))
    {
      ok := true;
      if id.Some? {
        var _, deleted := DeletePrivateIp(id.value);
        ok := deleted;
      }
    }

    method OciRelease(id: string) returns (ok: bool)
      requires store.Valid()
      modifies this, store`rows
      ensures store.Valid()
      ensures (State(), ok) == Release(old(State()), id, env, old(asked))
      ensures ok ==> exists now :: ReleaseDone(old(State()), State(), id, now)
    {
      hide WriteRow, DeleteIfSome, ReleasedRow, ReleaseDone, SqliteStore.Valid, SqliteStore.Contents;
      ghost var start, first := State(), asked;
      if Release(start, id, env, first).1 {
        ReleaseTakesTheRow(start, id, env, first);
      }
      ok := false;
      var row := FetchRow(id);
      if row.None? {
        return;
      }
      var m := row.value;
      if m.ociPublicIp.None? && m.ociPrivateIp.None? {
        return;
      }
      ok := DeletePublicIfSome(m.ociPublicIp);
      if !ok {
        return;
      }
      ok := DeletePrivateIfSome(m.ociPrivateIp);
      if !ok {
        return;
      }
      var r := Ask();
      ReleasedKeepsId(m);
      ok := SaveRow(ReleasedRow(m, r.now), r);
    }

    method OciReleaseIds(public: Option<string>, private: Option<string>) returns (ok: bool)
      requires store.Valid()
      modifies this
      ensures store.Valid()
      ensures (State(), ok) == ReleaseIds(old(State()), public, private, env, old(asked))
    {
      hide DeleteIfSome;
      ok := false;
      if public.None? && private.None? {
        return;
      }
      ok := DeletePublicIfSome(public);
      if ok {
        ok := DeletePrivateIfSome(private);
      }
    }

    // The command line's cleanup: failures are gathered, and any is reported at the end.
    method CleanUpRow(m: Mapping) returns (ok: bool)
      requires store.Valid()
      modifies this
      ensures store.Valid()
      ensures (State(), ok) == CleanUp(old(State()), m, env, old(asked))
    {
      var failures := [];
      if m.ociPublicIp.Some? {
        var r, deleted := DeletePublicIp(m.ociPublicIp.value);
        if !deleted && !r.readsAbsent {
          failures := failures + ["public IP " + m.ociPublicIp.value];
        }
      }
      if m.ociPrivateIp.Some? {
        var r, deleted := DeletePrivateIp(m.ociPrivateIp.value);
        if !deleted && !r.readsAbsent {
          failures := failures + ["private IP " + m.ociPrivateIp.value];
        }
      }
      ok := failures == [];
    }
  }

}
