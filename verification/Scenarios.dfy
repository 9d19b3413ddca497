// Concrete runs of the reconciler: a rollback that leaves the log behind, and an allocation that
// orphans an address and a rule.
module Scenarios {
  import opened Wrappers
  import opened Mappings
  import opened Validation
  import opened Ruleset
  import opened Render
  import opened ReadBack
  import opened Tables
  import Text
  import opened Site
  import opened Xdp
  import opened Reconciling
  import opened AddressLoop
  import opened Convergence
  import LatestActive
  import Agent
  import AgentCalls
  import Moving
  import Oci
  import OciRuns

  const START := World(SITE, map[], [], None, None, {}, {})

  function Always(k: nat): Answer {
    Answer(Kind.Good, true, 0)
  }

  // A table of at most one row, and its list.
  lemma LoneRowTable(row: Mapping)
    requires ValidMapping(row, SITE) && !IsXdp(row)
    ensures var t := map[row.id := row];
            Keyed(t) && TableAccepts(t, SITE) && Listing(t) == [row] && XdpRows(Listing(t)) == []
  {
    hide ValidateMapping, Listing, Before;
    var t := map[row.id := row];
    assert IsListing(t, [row]) by { Text.LessTotal(row.id, row.id); }
    ListingIsListing(t);
    ListingUnique(t, Listing(t), [row]);
    assert [row][..0] == [] && XdpRows([]) == [];
  }

  lemma NoRowTable()
    ensures Keyed(START.table) && TableAccepts(START.table, SITE) && Listing(START.table) == []
    ensures XdpRows(Listing(START.table)) == []
  {
  }

  // A full reconcile without fault, as a cut-off run of some length.
  lemma Reconciles(w: World) returns (end: World, n: nat)
    requires w.config == SITE && Keyed(w.table) && TableAccepts(w.table, SITE) && XdpRows(Listing(w.table)) == []
    ensures Steps(w, ListRows(Agent.DELETE_OPTIONS), Always, 0, n).0 == end
    ensures var text := RulesText(Listing(w.table), SITE);
            && end.file == end.live == Some(text)
            && end.log == w.log + [Generation(Rendered, text), Generation(Validated, text), Generation(Activated, text)]
            && end.addrs == Applied(w.addrs, Listing(w.table)) && (w.added == w.addrs ==> end.added == end.addrs)
            && end.config == SITE && Calm(w.table, end.table)
  {
    hide Finish, Listing, RulesText, TableAccepts, Steps, Step, Calm, Checked, Applied, Ups, Downs;
    var report;
    end, report := FaultFreeReconcile(w, Agent.DELETE_OPTIONS, Always, 0);
    FinishIsSteps(w, ListRows(Agent.DELETE_OPTIONS), Always, 0);
    n := Finish(w, ListRows(Agent.DELETE_OPTIONS), Always, 0).2;
  }

  // ---- A rollback ----

  lemma EmptyAndLoneTextsDiffer(row: Mapping)
    requires IsElement(row)
    ensures RulesText([], SITE) != RulesText([row], SITE)
  {
    hide RulesetText, ReadableRuleset;
    CompiledIsReadable([], SITE, TABLE_NAME);
    CompiledIsReadable([row], SITE, TABLE_NAME);
    ReadsBack(Compile([], SITE, TABLE_NAME));
    ReadsBack(Compile([row], SITE, TABLE_NAME));
    CompileSnoc([], row, SITE.wan);
    assert [] + [row] == [row];
  }

  // A reconcile of an empty site, a new row, a second reconcile, and a rollback to the first
  // generation: the latest active generation is not what is live, and no validated row explains it.
  lemma RollbackLeavesTheLogBehind() returns (w: World, n: nat, n': nat)
    ensures w == LatestActive.Play(START, [LatestActive.Reconciled(Agent.DELETE_OPTIONS, Always, n),
                                           LatestActive.RowsChanged(map["a" := OciRuns.ROW]),
                                           LatestActive.Reconciled(Agent.DELETE_OPTIONS, Always, n')])
    ensures Finish(w, FetchGeneration(1), Always, 0).1 == Restored
    ensures !LatestActive.LiveIsLatestActive(Finish(w, FetchGeneration(1), Always, 0).0)
  {
    hide Finish, Steps, Listing, RulesText, TableAccepts, ValidateMapping, Calm, LatestActive.LiveIsLatestActive;
    var row := OciRuns.ROW;
    SiteRowIsValid("a", 41, 41, None);
    LoneRowTable(row);
    NoRowTable();
    var w1;
    w1, n := Reconciles(START);
    var w2 := w1.(table := map["a" := row]);
    w, n' := Reconciles(w2);
    PlayThree(START, w1, w2, w, n, n');
    LatestActive.RollbackSucceedsExactly(w, 1, Always, 0);
    LatestActive.RollbackEffect(w, 1, Always, 0);
    EmptyAndLoneTextsDiffer(row);
    assert w.log[0].text == RulesText([], SITE);
    LogClaims(w, Finish(w, FetchGeneration(1), Always, 0).0, RulesText([row], SITE));
  }

  // Another text is live than the one that the last row of the log calls active.
  lemma LogClaims(w: World, end: World, text: string)
    requires w.log != [] && w.log[|w.log| - 1] == Generation(Activated, text)
    requires end.log == w.log && end.live != Some(text)
    ensures !LatestActive.LiveIsLatestActive(end)
  {
  }

  lemma PlayThree(w0: World, w1: World, w2: World, w3: World, n: nat, n': nat)
    requires Steps(w0, ListRows(Agent.DELETE_OPTIONS), Always, 0, n).0 == w1
    requires w2 == w1.(table := w2.table)
    requires Steps(w2, ListRows(Agent.DELETE_OPTIONS), Always, 0, n').0 == w3
    ensures LatestActive.Play(w0, [LatestActive.Reconciled(Agent.DELETE_OPTIONS, Always, n),
                                   LatestActive.RowsChanged(w2.table),
                                   LatestActive.Reconciled(Agent.DELETE_OPTIONS, Always, n')]) == w3
  {
    hide Steps, LatestActive.Play;
    LatestActive.PlayThree(w0, LatestActive.Reconciled(Agent.DELETE_OPTIONS, Always, n),
                           LatestActive.RowsChanged(w2.table),
                           LatestActive.Reconciled(Agent.DELETE_OPTIONS, Always, n'));
  }

  // ---- An allocation ----

  // A row is created and reconciled, and then gets a cloud address: its first edge address stays on
  // the interface and its first rule in the live table, and no stored row stands behind either.
  lemma AllocationOrphans() returns (w: World, n: nat)
    ensures w == Agent.AgentRun(START, [Agent.Create(OciRuns.ROW, true),
                                        Agent.Reconcile(Agent.DELETE_OPTIONS, Always, n)])
    ensures var s := OciRuns.FRESH.(table := w.table);
            var (s', ok) := Oci.Allocate(s, "a", OciRuns.Working, 0);
            && ok && s'.config == Some(SITE)
            && OciRuns.ROW.edgeIp in w.added && !Agent.NamedIn(s'.table, OciRuns.ROW.edgeIp)
            && w.live.Some? && ReadRuleset(w.live.value).Some?
            && var rs := ReadRuleset(w.live.value).value;
               && ElementOf(OciRuns.ROW) in rs.elements && !Moving.ElementBacked(s'.table, ElementOf(OciRuns.ROW))
  {
    hide Finish, Steps, Listing, RulesText, TableAccepts, ValidateMapping, ReadRuleset, Oci.Allocate;
    var row := OciRuns.ROW;
    SiteRowIsValid("a", 41, 41, None);
    LoneRowTable(row);
    var w1 := START.(table := map["a" := row]);
    CreatesRow();
    w, n := Reconciles(w1);
    AgentTwoSteps(START, w1, w, n);
    LoneRowApplied(row);
    QuietRowIsUnallocated(w.table["a"], row);
    var s := OciRuns.FRESH.(table := w.table);
    OciRuns.LoneAllocationCompletes(s, "a", OciRuns.Working, 0);
    LiveTextHasElement(row);
  }

  lemma CreatesRow()
    ensures Agent.AgentStep(START, Agent.Create(OciRuns.ROW, true)) == START.(table := map["a" := OciRuns.ROW])
  {
    hide ValidateMapping;
    SiteRowIsValid("a", 41, 41, None);
    assert map[]["a" := OciRuns.ROW] == map["a" := OciRuns.ROW];
  }

  lemma AgentTwoSteps(w0: World, w1: World, w2: World, n: nat)
    requires Agent.AgentStep(w0, Agent.Create(OciRuns.ROW, true)) == w1
    requires Steps(w1, ListRows(Agent.DELETE_OPTIONS), Always, 0, n).0 == w2
    ensures Agent.AgentRun(w0, [Agent.Create(OciRuns.ROW, true), Agent.Reconcile(Agent.DELETE_OPTIONS, Always, n)])
            == w2
  {
    hide Steps, SqlExec;
    var last := Agent.Reconcile(Agent.DELETE_OPTIONS, Always, n);
    assert Agent.AgentStep(w1, last) == w2;
    assert Agent.AgentRun(w1, [last]) == w2 by {
      assert [last][1..] == [];
      assert Agent.AgentRun(w2, []) == w2;
    }
    assert [Agent.Create(OciRuns.ROW, true), last][1..] == [last];
  }

  lemma LoneRowApplied(row: Mapping)
    requires row.enabled && row.backend == Nft
    ensures Applied({}, [row]) == {row.edgeIp}
  {
    assert [row][..0] == [];
  }

  // A health report leaves a row valid and without cloud address.
  lemma QuietRowIsUnallocated(m: Mapping, row: Mapping)
    requires Quiet(m) == Quiet(row) && Oci.Unallocated(row) && ValidMapping(row, SITE)
    ensures Oci.Unallocated(m) && ValidMapping(m, SITE) && m.targetIp == row.targetIp
  {
    assert m.publicIp == Quiet(m).publicIp && m.ociPublicIp == Quiet(m).ociPublicIp;
    assert m.ociPrivateIp == Quiet(m).ociPrivateIp && m.targetIp == Quiet(m).targetIp;
    QuietIrrelevantToValidity(m, SITE);
    QuietIrrelevantToValidity(row, SITE);
  }

  lemma LiveTextHasElement(row: Mapping)
    requires IsElement(row)
    ensures var rs := ReadRuleset(RulesText([row], SITE));
            rs.Some? && rs.value.elements == [ElementOf(row)]
  {
    hide RulesetText, ReadableRuleset, ReadRuleset;
    CompiledIsReadable([row], SITE, TABLE_NAME);
    ReadsBack(Compile([row], SITE, TABLE_NAME));
    CompileSnoc([], row, SITE.wan);
    assert [] + [row] == [row];
  }

  // ---- A delete ----

  // Beside an enabled XDP row the delete of another row fails, though every call is answered, and
  // leaves the row behind switched off.
  lemma XdpRowBlocksTheDelete()
    ensures var a, x := SiteRow("a", 41, 41, None), XdpSiteRow("x", 42, 42);
            var w := START.(table := map["a" := a, "x" := x]);
            && TableAccepts(w.table, SITE)
            && var (end, deleted) := AgentCalls.DeleteCall(w, "a", Always, 0);
               deleted == None && "a" in end.table && !end.table["a"].enabled
  {
    hide ValidateMapping, AgentCalls.DeleteCall;
    var a, x := SiteRow("a", 41, 41, None), XdpSiteRow("x", 42, 42);
    SiteRowIsValid("a", 41, 41, None);
    XdpSiteRowIsValid("x", 42, 42);
    var w := START.(table := map["a" := a, "x" := x]);
    assert w.table["a"] == a && w.table["x"] == x && !Clash(a, x) && !Clash(x, a);
    AgentCalls.DeleteCompletesExactly(w, "a", Always, 0);
    assert IsXdp(w.table["x"]);
  }
}
