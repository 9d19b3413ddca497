// Concrete runs of the cloud calls: a release that cannot be completed, and removals that leak.
module OciRuns {
  import opened Wrappers
  import opened Addresses
  import opened Mappings
  import opened Validation
  import opened Tables
  import opened Site
  import opened Oci
  import opened OciCleanup

  // ---- When an allocation completes ----

  lemma AllocatedRowIsValid(m: Mapping, config: EdgeConfig, private: Reply, public: Reply, now: Time)
    requires ValidMapping(m, config) && IsPrivate(private.ip) && private.ip != m.targetIp
    requires !IsReservedOrPrivate(public.ip)
    ensures ValidMapping(AllocatedRow(m, private, public, now), config)
  {
    assert ValidateMode(AllocatedRow(m, private, public, now)) == ValidateMode(m);
  }

  // The only row of a table passes every check against the others.
  lemma LoneRowIsSaved(s: Saga, row: Mapping, r: Reply)
    requires s.config.Some? && s.table.Keys == {row.id} && ValidMapping(row, s.config.value) && r.kind == Good
    ensures WriteRow(s, row, r)
            == (s.(table := s.table[row.id := row.(createdAt := s.table[row.id].createdAt)]), true)
  {
    hide ValidateMapping;
  }

  // The saga after both creates and the write.
  function Allocated(s: Saga, row: Mapping, private: string, public: string): Saga {
    s.(table := s.table[row.id := row], privates := s.privates + {private}, publics := s.publics + {public},
       created := s.created + {private} + {public}, known := s.known + {private} + {public})
  }

  lemma LoneAllocationCompletes(s: Saga, id: string, env: Replies, k: nat)
    requires AllGood(env) && Keyed(s.table) && s.table.Keys == {id} && Unallocated(s.table[id])
    requires s.config.Some? && ValidMapping(s.table[id], s.config.value)
    requires env(k + 2).id !in s.known && env(k + 3).id !in s.known && env(k + 2).id != env(k + 3).id
    requires IsPrivate(env(k + 2).ip) && env(k + 2).ip != s.table[id].targetIp && !IsReservedOrPrivate(env(k + 3).ip)
    ensures var row := AllocatedRow(s.table[id], env(k + 2), env(k + 3), env(k + 4).now);
            Allocate(s, id, env, k) == (Allocated(s, row, env(k + 2).id, env(k + 3).id), true)
  {
    hide ValidateMapping, WriteRow;
    var m := s.table[id];
    var row := AllocatedRow(m, env(k + 2), env(k + 3), env(k + 4).now);
    AllocatedRowIsValid(m, s.config.value, env(k + 2), env(k + 3), env(k + 4).now);
    LoneRowIsSaved(ForwardingIp(s, env, k + 1).0, row, env(k + 4));
    assert row.(createdAt := m.createdAt) == row;
  }

  // ---- The runs ----

  const FRESH := Saga(Some(SITE), map[], {}, {}, {}, {}, {}, {})

  const ROW := SiteRow("a", 41, 41, None)

  function Working(k: nat): Reply {
    if k == 2 then Reply(Kind.Good, "private", Addr(10, 0, 0, 99), false, 0)
    else Reply(Kind.Good, "public", PUBLIC, false, 0)
  }

  // The second delete of a release is refused.
  function CutShort(k: nat): Reply {
    if k == 2 then Reply(Kind.Refused, "", PUBLIC, false, 0) else Working(k)
  }

  // Every delete is refused with a text that reads like absence.
  function Misleading(k: nat): Reply {
    Reply(Kind.Refused, "", PUBLIC, true, 0)
  }

  function AllocatedSite(): Saga {
    Allocated(FRESH.(table := map["a" := ROW]), AllocatedRow(ROW, Working(2), Working(3), 0), "private", "public")
  }

  lemma AllocatingRuns()
    ensures SagaRun(FRESH, [Create(ROW), AllocateFor("a", Working)]) == AllocatedSite()
    ensures Accounted(FRESH) && Accounted(AllocatedSite())
  {
    hide ValidateMapping, Allocate, Accounted, Allocated;
    SiteRowIsValid("a", 41, 41, None);
    CreatingRuns();
    assert Accounted(FRESH) by { NothingToAccount(); }
    var s := SagaStep(FRESH, Create(ROW));
    LoneAllocationCompletes(s, "a", Working, 0);
    SagaStepStaysAccounted(FRESH, Create(ROW));
    SagaStepStaysAccounted(s, AllocateFor("a", Working));
    TwoSteps(FRESH, Create(ROW), AllocateFor("a", Working));
  }

  lemma NothingToAccount()
    ensures Accounted(FRESH)
  {
  }

  lemma CreatingRuns()
    ensures SagaStep(FRESH, Create(ROW)) == FRESH.(table := map["a" := ROW])
  {
    hide ValidateMapping;
    SiteRowIsValid("a", 41, 41, None);
    assert ROW.(ociPublicIp := None, ociPrivateIp := None) == ROW;
    assert map[]["a" := ROW] == map["a" := ROW];
  }

  lemma TwoSteps(s: Saga, op: SagaOp, op': SagaOp)
    ensures SagaRun(s, [op, op']) == SagaStep(SagaStep(s, op), op')
  {
    hide SagaStep;
    var s1 := SagaStep(s, op);
    assert SagaRun(SagaStep(s1, op'), []) == SagaStep(s1, op');
    assert SagaRun(s1, [op']) == SagaStep(s1, op') by { assert [op'][1..] == []; }
    assert [op, op'][1..] == [op'];
  }

  // A release cut off between its two deletes leaves the private address live, and no release of
  // the row ever completes again, though the cloud works.
  lemma CutShortReleaseSticks(ops: seq<SagaOp>, env: Replies, k: nat)
    ensures var s := Release(AllocatedSite(), "a", CutShort, 0).0;
            && s == AllocatedSite().(publics := {})
            && Stuck(s, "a")
            && Release(SagaRun(s, ops), "a", env, k) == (SagaRun(s, ops), false)
  {
    hide Accounted, SagaRun, Stuck;
    AllocatingRuns();
    InterruptedReleaseIsStuck(AllocatedSite(), "a", CutShort, 0);
    InterruptedReleaseNeverCompletes(AllocatedSite(), "a", CutShort, 0, ops, env, k);
  }

  // Removing the allocated row, as the agent's delete does, leaves both addresses live with no row.
  lemma RemovedRowLeaks()
    ensures var s := AllocatedSite().(table := DeleteStatement(AllocatedSite().table, "a"));
            && Live(s) == {"private", "public"} && LostSight(s) == {} && s.table == map[]
            && !Accounted(s)
  {
    var s := AllocatedSite().(table := DeleteStatement(AllocatedSite().table, "a"));
    assert "private" in Live(s) && !Referenced(s.table, "private");
  }

  // A cleanup whose errors are misread reports success, and the removal after it leaks.
  lemma MisreadCleanupLeaks()
    ensures var s := AllocatedSite();
            && CleanUp(s, s.table["a"], Misleading, 0) == (s, true)
            && !Accounted(s.(table := DeleteStatement(s.table, "a")))
  {
    RemovedRowLeaks();
  }
}
