// The agent's delete as it runs on a host, proved to be a run of the delete machine.
module AgentCalls {
  import opened Wrappers
  import opened Mappings
  import opened Validation
  import opened RowCodec
  import opened Tables
  import opened Ruleset
  import opened Render
  import opened ReadBack
  import opened NftFiles
  import opened Xdp
  import opened Reconciling
  import opened AddressLoop
  import opened Convergence
  import opened Reconcilers
  import opened Agent
  import LatestActive

  // A whole delete: the row is switched off and read back, the host reconciled, and the row read
  // and removed; the first failure ends it.
  ghost function DeleteCall(w: World, id: string, env: Environment, k: nat): (World, Option<Mapping>) {
    var off := EnableStatement(w.table, id, false, env(k).now);
    if env(k).kind != Good || off.None? then (w, None)
    else
      var w1 := w.(table := off.value);
      if env(k + 1).kind != Good || id !in w1.table then (w1, None)
      else
        var (w2, outcome, k') := Finish(w1, ListRows(DELETE_OPTIONS), env, k + 2);
        if !outcome.Reported? then (w2, None)
        else Removal(w2, id, env, k')
  }

  ghost function Removal(w: World, id: string, env: Environment, k: nat): (World, Option<Mapping>) {
    if env(k).kind != Good || id !in w.table || env(k + 1).kind != Good then (w, None)
    else (w.(table := DeleteStatement(w.table, id)), Some(w.table[id]))
  }

  // Inside a delete the reconcile runs to its end like any other.
  lemma {:induction false} PushingFinishes(w: World, id: string, call: Pc, env: Environment, k: nat)
    requires !call.Finished?
    ensures var (end, outcome, k') := Finish(w, call, env, k);
            && k < k'
            && DeleteSteps(w, Pushing(id, call), env, k, k' - k)
               == (end, if outcome.Reported? then FetchDoomed(id) else Done(None))
    decreases Phase(call), Left(call)
  {
    hide Step;
    StepProgress(w, call, env(k));
    var (w', call') := Step(w, call, env(k));
    FinishIsSteps(w', call', env, k + 1);
    if !call'.Finished? {
      PushingFinishes(w', id, call', env, k + 1);
    } else {
      assert DeleteSteps(w, Pushing(id, call), env, k, 1) == DeleteStep(w, Pushing(id, call), env(k)) by {
        var (w1, pc1) := DeleteStep(w, Pushing(id, call), env(k));
        assert DeleteSteps(w1, pc1, env, k + 1, 0) == (w1, pc1);
      }
    }
  }

  lemma {:induction false} DeleteStepsChain(w: World, pc: DeletePc, env: Environment, k: nat, m: nat, n: nat)
    ensures DeleteSteps(w, pc, env, k, m + n)
            == DeleteSteps(DeleteSteps(w, pc, env, k, m).0, DeleteSteps(w, pc, env, k, m).1, env, k + m, n)
    decreases m
  {
    hide DeleteStep;
    if m > 0 {
      DeleteStepsChain(DeleteStep(w, pc, env(k)).0, DeleteStep(w, pc, env(k)).1, env, k + 1, m - 1, n);
    }
  }

  lemma RemovalIsSteps(w: World, id: string, env: Environment, k: nat)
    ensures DeleteSteps(w, FetchDoomed(id), env, k, 2) == (Removal(w, id, env, k).0, Done(Removal(w, id, env, k).1))
  {
  }

  // A whole delete is a run of the delete machine, so what every such run keeps holds of it.
  lemma DeleteCallIsSteps(w: World, id: string, env: Environment, k: nat) returns (n: nat)
    ensures DeleteSteps(w, SwitchOff(id), env, k, n) == (DeleteCall(w, id, env, k).0, Done(DeleteCall(w, id, env, k).1))
  {
    hide Step, Removal, Admits;
    var (w1, pc1) := DeleteStep(w, SwitchOff(id), env(k));
    OneStep(w, SwitchOff(id), env, k);
    if pc1.Done? {
      return 1;
    }
    OneStep(w1, pc1, env, k + 1);
    DeleteStepsChain(w, SwitchOff(id), env, k, 1, 1);
    var (w2, pc2) := DeleteStep(w1, pc1, env(k + 1));
    if pc2.Done? {
      return 2;
    }
    var (w3, outcome, k') := Finish(w2, ListRows(DELETE_OPTIONS), env, k + 2);
    PushingFinishes(w2, id, ListRows(DELETE_OPTIONS), env, k + 2);
    DeleteStepsChain(w, SwitchOff(id), env, k, 2, k' - (k + 2));
    if !outcome.Reported? {
      return k' - k;
    }
    RemovalIsSteps(w3, id, env, k');
    DeleteStepsChain(w, SwitchOff(id), env, k, k' - k, 2);
    n := k' - k + 2;
  }

  lemma OneStep(w: World, pc: DeletePc, env: Environment, k: nat)
    ensures DeleteSteps(w, pc, env, k, 1) == DeleteStep(w, pc, env(k))
  {
  }

  // A delete that reports success has removed the row, and nothing of it is left: no live rule
  // stands for it, and no added address is there for its sake alone.
  lemma DeletedRowIsGone(w: World, id: string, env: Environment, k: nat)
    requires OrphanFree(w) && DeleteCall(w, id, env, k).1.Some?
    ensures var end := DeleteCall(w, id, env, k).0;
            id !in end.table && OrphanFree(end)
  {
    hide OrphanFree, Finish, DeleteSteps, EnableStatement;
    var n := DeleteCallIsSteps(w, id, env, k);
    DeleteStepsTidy(w, SwitchOff(id), env, k, n);
  }

  // What a delete that reports success comes to, whatever the world and the answers: the row is gone
  // and is returned switched off, every other row keeps all but its health, and file, live table, log
  // and addresses are those of the rows with this one switched off.
  lemma DeleteConverges(w: World, id: string, env: Environment, k: nat)
    requires Keyed(w.table) && DeleteCall(w, id, env, k).1.Some?
    ensures id in w.table
    ensures var (end, deleted) := DeleteCall(w, id, env, k);
            var rows := Listing(w.table[id := WithEnabled(w.table[id], false, env(k).now)]);
            && end.table.Keys == w.table.Keys - {id}
            && (forall other :: other in end.table ==> Quiet(end.table[other]) == Quiet(w.table[other]))
            && !deleted.value.enabled
            && SameTerms(w.table[id], deleted.value) && SameAssigned(w.table[id], deleted.value)
            && end.file == end.live == Some(RulesText(rows, w.config))
            && LatestActive.LatestActive(end.log) == end.live && |end.log| == |w.log| + 3
            && end.addrs == Applied(w.addrs, rows)
  {
    hide Finish, Listing, RulesText, Applied, TableAccepts, Admits, Ups, Downs;
    SwitchKeepsKeyed(w.table, id, env(k).now);
    var w1 := w.(table := EnableStatement(w.table, id, false, env(k).now).value);
    SuccessMeansConverged(w1, DELETE_OPTIONS, env, k + 2);
    var end := Finish(w1, ListRows(DELETE_OPTIONS), env, k + 2).0;
    assert Quiet(end.table[id]) == Quiet(w1.table[id]);
    SameQuietTerms(end.table[id], w1.table[id]);
  }

  lemma SameQuietTerms(m: Mapping, n: Mapping)
    requires Quiet(m) == Quiet(n)
    ensures SameTerms(m, n) && SameAssigned(m, n) && m.enabled == n.enabled
  {
    assert m == Quiet(m).(status := m.status, lastError := m.lastError, healthStatus := m.healthStatus,
                          lastCheckedAt := m.lastCheckedAt, updatedAt := m.updatedAt);
    assert n == Quiet(m).(status := n.status, lastError := n.lastError, healthStatus := n.healthStatus,
                          lastCheckedAt := n.lastCheckedAt, updatedAt := n.updatedAt);
  }

  // And so for packets: the live text sends each packet where the remaining rows say, and none where
  // the deleted row said.
  lemma DeletedRowGetsNoPacket(w: World, id: string, env: Environment, k: nat, p: Packet)
    requires Keyed(w.table) && DeleteCall(w, id, env, k).1.Some?
    requires Quotable(w.config.wan) && Quotable(w.config.netbird)
    ensures var end := DeleteCall(w, id, env, k).0; Governed(end.live, end.table, w.config, p)
  {
    hide Finish, Governed, TableAccepts, Admits, Listing, Converged, Quiet;
    SwitchKeepsKeyed(w.table, id, env(k).now);
    var w1 := w.(table := EnableStatement(w.table, id, false, env(k).now).value);
    SuccessMeansConverged(w1, DELETE_OPTIONS, env, k + 2);
    var (end, outcome, _) := Finish(w1, ListRows(DELETE_OPTIONS), env, k + 2);
    StoredRowsGovernPackets(w1, DELETE_OPTIONS, env, k + 2, p, "", p.daddr);
    ConvergedKeepsSwitches(w1, DELETE_OPTIONS, end, outcome.report, id);
    GovernedWithout(end.live, end.table, w.config, p, id);
  }

  lemma GovernedWithout(live: Option<string>, t: Table, config: EdgeConfig, p: Packet, id: string)
    requires Governed(live, t, config, p) && id in t && !t[id].enabled
    ensures Governed(live, t - {id}, config, p)
  {
    hide ReadFile, Prerouting, Destination;
    var u := t - {id};
    assert forall other :: other in t && other != id ==> other in u && u[other] == t[other];
    assert (forall other :: other in u ==> !Claims(u[other], config.wan, p)) ==>
        forall other :: other in t ==> !Claims(t[other], config.wan, p);
  }

  lemma ConvergedKeepsSwitches(w: World, options: Options, end: World, report: Report, id: string)
    requires Converged(w, options, end, report) && id in w.table
    ensures id in end.table && end.table[id].enabled == w.table[id].enabled
  {
    hide RulesText, Listing, Applied, Ups, Downs;
    SameQuietTerms(end.table[id], w.table[id]);
  }

  // ---- When a delete completes ----

  // A row may always be switched off, and the table stays acceptable.
  lemma SwitchingOffIsAdmitted(t: Table, config: EdgeConfig, id: string, now: Time)
    requires Keyed(t) && TableAccepts(t, config)
    ensures var off := EnableStatement(t, id, false, now);
            && off.Some? && Keyed(off.value) && TableAccepts(off.value, config) && off.value.Keys == t.Keys
            && (forall other :: other in t && other != id ==> off.value[other] == t[other])
            && (id in t ==> !off.value[id].enabled)
  {
    hide ValidateMapping, Clash;
    if id in t {
      assert Admits(t, WithEnabled(t[id], false, now));
      EnableKeepsAccepted(t, config, id, false, now);
    }
  }

  lemma ListedXdpRows(t: Table)
    requires Keyed(t)
    ensures XdpRows(Listing(t)) == [] <==> forall id :: id in t ==> !IsXdp(t[id])
  {
    hide IsXdp, Listing;
    ListingIsListing(t);
    var ms := Listing(t);
    NoXdpRows(ms);
    if XdpRows(ms) == [] {
      forall id | id in t
        ensures !IsXdp(t[id])
      {
        var i :| 0 <= i < |ms| && ms[i] == t[id];
      }
    } else {
      var i :| 0 <= i < |ms| && IsXdp(ms[i]);
      assert ms[i] in ms;
    }
  }

  // With XDP off in its options, the reconcile of a delete reports success exactly when no enabled
  // row asks for XDP, and otherwise changes nothing.
  lemma PushSucceedsExactly(w: World, env: Environment, k: nat)
    requires AllGood(env) && Keyed(w.table) && TableAccepts(w.table, w.config)
    ensures var (end, outcome, _) := Finish(w, ListRows(DELETE_OPTIONS), env, k);
            && (outcome.Reported? <==> forall id :: id in w.table ==> !IsXdp(w.table[id]))
            && (outcome.Reported? ==> end.table.Keys == w.table.Keys)
            && (!outcome.Reported? ==> end == w)
  {
    hide Finish, TableAccepts, Listing, IsXdp, XdpRows, RulesText, Accepts;
    ListedXdpRows(w.table);
    if XdpRows(Listing(w.table)) == [] {
      var end, report := FaultFreeReconcile(w, DELETE_OPTIONS, env, k);
    } else {
      Unfold(w, ListRows(DELETE_OPTIONS), env, k);
      Ended(w, Errored, env, k + 1);
    }
  }

  // With every call answered, a delete completes exactly when the row is there and no other enabled
  // row asks for XDP; when it does not complete, it has switched the row off all the same.
  lemma DeleteCompletesExactly(w: World, id: string, env: Environment, k: nat)
    requires AllGood(env) && Keyed(w.table) && TableAccepts(w.table, w.config)
    ensures var (end, deleted) := DeleteCall(w, id, env, k);
            && (deleted.Some? <==>
                id in w.table && forall other :: other in w.table && other != id ==> !IsXdp(w.table[other]))
            && (deleted.None? && id in w.table ==> id in end.table && !end.table[id].enabled)
  {
    hide Finish, TableAccepts, EnableStatement;
    SwitchingOffIsAdmitted(w.table, w.config, id, env(k).now);
    var w1 := w.(table := EnableStatement(w.table, id, false, env(k).now).value);
    PushSucceedsExactly(w1, env, k + 2);
    if id in w.table {
      var (w2, outcome, k') := Finish(w1, ListRows(DELETE_OPTIONS), env, k + 2);
      forall other | other in w.table
        ensures IsXdp(w1.table[other]) <==> other != id && IsXdp(w.table[other])
      {
      }
      assert w1.table.Keys == w.table.Keys;
      assert outcome.Reported? <==> forall other :: other in w.table && other != id ==> !IsXdp(w.table[other]);
      assert outcome.Reported? ==> Removal(w2, id, env, k').1.Some?;
    }
  }

  method SwitchRowOff(host: Host, id: string, now: Time) returns (ok: bool)
    requires Keyed(host.table)
    modifies host`table
    ensures ok <==> EnableStatement(old(host.table), id, false, now).Some?
    ensures host.table == if ok then EnableStatement(old(host.table), id, false, now).value else old(host.table)
  {
    hide Blocks, Encode;
    ok := true;
    if id in host.table {
      var row := WithEnabled(host.table[id], false, now);
      ok := forall other :: other in host.table && other != row.id ==> !Blocks(Encode(row), Encode(host.table[other]));
      if ok {
        host.table := host.table[id := row];
      }
    }
  }

  method DeleteMapping(host: Host, id: string) returns (deleted: Option<Mapping>)
    requires Keyed(host.table)
    modifies host
    ensures (host.State(), deleted) == old(DeleteCall(host.State(), id, host.env, host.asked))
  {
    hide Finish, EnableStatement;
    deleted := None;
    var a := host.Ask();
    if a.kind != Good {
      return;
    }
    SwitchKeepsKeyed(host.table, id, a.now);
    var switched := SwitchRowOff(host, id, a.now);
    if !switched {
      return;
    }
    a := host.Ask();
    if a.kind != Good || id !in host.table {
      return;
    }
    var outcome := host.Reconcile(DELETE_OPTIONS);
    if !outcome.Reported? {
      return;
    }
    deleted := RemoveRow(host, id);
  }

  method RemoveRow(host: Host, id: string) returns (deleted: Option<Mapping>)
    modifies host`table, host`asked
    ensures (host.State(), deleted) == old(Removal(host.State(), id, host.env, host.asked))
  {
    deleted := None;
    var a := host.Ask();
    if a.kind != Good || id !in host.table {
      return;
    }
    a := host.Ask();
    if a.kind == Good {
      deleted := Some(host.table[id]);
      host.table := host.table - {id};
    } else {
      assert host.State() == old(host.State());
    }
  }

  lemma SwitchKeepsKeyed(t: Table, id: string, now: Time)
    requires Keyed(t)
    ensures EnableStatement(t, id, false, now).Some? ==> Keyed(EnableStatement(t, id, false, now).value)
  {
  }
}
