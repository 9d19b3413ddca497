// A reconcile that meets no fault: the host ends up doing what the stored rows say.
module Convergence {
  import opened Wrappers
  import opened Addresses
  import opened Mappings
  import opened Validation
  import opened Ruleset
  import opened Render
  import opened NftFiles
  import opened ReadBack
  import opened Renderer
  import opened Tables
  import opened Xdp
  import opened Reconciling
  import opened AddressLoop
  import opened PartialRuns

  predicate FullApply(options: Options) {
    !options.dryRun && options.applyNft && options.applyLinux && ValidXdpConfig(options.xdp)
  }

  // What a health check stores: `active` with what was checked, or `degraded` with an error, which
  // only a tcp port can be.
  predicate Checked(m: Mapping) {
    || (m.status == Active && m.lastError.None?
        && m.healthStatus == Some(if m.protocol == Udp then "udp_unchecked"
                                  else if m.targetPort.None? then "ok" else "tcp_ok"))
    || (m.status == Degraded && m.lastError.Some? && m.healthStatus == Some("degraded")
        && m.protocol != Udp && m.targetPort.Some?)
  }

  // The answer to a health check decides what is stored of it, and nothing else of the row or of
  // another row changes.
  lemma ProbeRecords(w: World, job: Job, i: nat, report: Report, a: Answer)
    requires a.kind == Good && i < |job.rows| && job.rows[i].id in w.table
    ensures var m, t := job.rows[i], Step(w, Probe(job, i, report), a).0.table;
            var reached := m.protocol == Udp || m.targetPort.None? || a.reachable;
            && t.Keys == w.table.Keys && (forall id :: id in t && id != m.id ==> t[id] == w.table[id])
            && Quiet(t[m.id]) == Quiet(w.table[m.id])
            && t[m.id].status == (if reached then Active else Degraded)
            && t[m.id].lastError.None? == reached
            && t[m.id].healthStatus == Some(if !reached then "degraded" else if m.protocol == Udp then "udp_unchecked"
                                            else if m.targetPort.None? then "ok" else "tcp_ok")
            && t[m.id].lastCheckedAt == Some(a.now) && t[m.id].updatedAt == a.now
  {
  }

  lemma ProbedIsChecked(w: World, m: Mapping, a: Answer)
    requires m.id in w.table && Quiet(m) == Quiet(w.table[m.id])
    ensures Checked(Probed(w, m, a).table[m.id])
    ensures forall id :: id in w.table && id != m.id ==> Probed(w, m, a).table[id] == w.table[id]
  {
    assert m.protocol == Quiet(m).protocol && m.targetPort == Quiet(m).targetPort;
    assert w.table[m.id].protocol == Quiet(m).protocol && w.table[m.id].targetPort == Quiet(m).targetPort;
  }

  // From row `i` on, with every call answered, each live row is checked and no other row changes.
  lemma {:induction false} MachineProbes(w: World, job: Job, i: nat, report: Report, env: Environment, k: nat)
    returns (w': World, k': nat)
    requires AllGood(env) && i <= |job.rows|
    requires forall m :: m in job.rows ==> m.id in w.table && Quiet(m) == Quiet(w.table[m.id])
    ensures Finish(w, ProbeFrom(job, i, report), env, k) == (w', Reported(report), k')
    ensures w' == w.(table := w'.table) && Calm(w.table, w'.table)
    ensures forall m :: m in job.rows[i..] && IsLive(m) ==> Checked(w'.table[m.id])
    ensures forall id :: id in w.table && (forall m :: m in job.rows[i..] && IsLive(m) ==> m.id != id) ==>
              w'.table[id] == w.table[id]
    decreases |job.rows| - i
  {
    hide Finish, HealthStatement, Step, Probed, Checked, Quiet, IsLive;
    if i >= |job.rows| {
      Unfold(w, Announce(report), env, k);
      AnnouncedIsFinished(w, report, env(k));
      Ended(w, Reported(report), env, k + 1);
      return w, k + 1;
    }
    assert job.rows[i..] == [job.rows[i]] + job.rows[i + 1..];
    if !IsLive(job.rows[i]) {
      w', k' := MachineProbes(w, job, i + 1, report, env, k);
      return;
    }
    Unfold(w, Probe(job, i, report), env, k);
    var m := job.rows[i];
    assert m in job.rows;
    var next := Probed(w, m, env(k));
    ProbeIsCalm(w, m, env(k));
    ProbedIsChecked(w, m, env(k));
    ProbedGoesOn(w, job, i, report, env(k));
    w', k' := MachineProbes(next, job, i + 1, report, env, k + 1);
  }

  lemma AnnouncedIsFinished(w: World, report: Report, a: Answer)
    requires a.kind == Good
    ensures Step(w, Announce(report), a) == (w, Finished(Reported(report)))
  {
  }

  lemma ProbedGoesOn(w: World, job: Job, i: nat, report: Report, a: Answer)
    requires a.kind == Good && i < |job.rows| && job.rows[i].id in w.table
    ensures Step(w, Probe(job, i, report), a) == (Probed(w, job.rows[i], a), ProbeFrom(job, i + 1, report))
  {
  }

  lemma ProbeIsCalm(w: World, m: Mapping, a: Answer)
    ensures Probed(w, m, a) == w.(table := Probed(w, m, a).table) && Calm(w.table, Probed(w, m, a).table)
  {
  }

  // What such a reconcile comes to. It writes the text of the stored rows and logs it as rendered and
  // validated. It loads the text if told to apply it, puts exactly the prescribed addresses in place
  // if told to apply those, and only if told both does it log the text as active and check every live
  // row. Nothing else changes.
  ghost predicate Converged(w: World, options: Options, end: World, report: Report) {
    var rows, text := Listing(w.table), RulesText(Listing(w.table), w.config);
    var full := options.applyNft && options.applyLinux;
    && end.file == Some(text) && end.live == (if options.applyNft then Some(text) else w.live)
    && end.log == w.log + [Generation(Rendered, text), Generation(Validated, text)]
                  + (if full then [Generation(Activated, text)] else [])
    && end.addrs == (if options.applyLinux then AddressLoop.Applied(w.addrs, rows) else w.addrs)
    && report == Report(text, Some(if full then |w.log| + 3 else |w.log| + 1),
                        if options.applyLinux then Ups(w.addrs, rows) else [],
                        if options.applyLinux then Downs(w.addrs, rows) else [], 0)
    && end.config == w.config && Calm(w.table, end.table) && (w.added == w.addrs ==> end.added == end.addrs)
    && forall id :: id in w.table ==>
         if full && IsLive(w.table[id]) then Checked(end.table[id]) else end.table[id] == w.table[id]
  }

  // With every call answered, a reconcile of an acceptable table without XDP rows that is no dry run
  // reports success.
  lemma FaultFreeReconcile(w: World, options: Options, env: Environment, k: nat) returns (end: World, report: Report)
    requires AllGood(env) && !options.dryRun && ValidXdpConfig(options.xdp)
    requires Keyed(w.table) && TableAccepts(w.table, w.config) && XdpRows(Listing(w.table)) == []
    ensures Finish(w, ListRows(options), env, k).0 == end
    ensures Finish(w, ListRows(options), env, k).1 == Reported(report)
    ensures Converged(w, options, end, report)
  {
    hide Finish, RulesText, Listing, AddressFrom, ProbeFrom, Calm, Checked;
    var rows, text := Listing(w.table), RulesText(Listing(w.table), w.config);
    var job := Job(rows, text, options, |w.log| + 1);
    ListingIsListing(w.table);
    ListingAccepted(w.table, rows, w.config);
    AcceptedListPlans(options.xdp, rows, w.config);
    assert Prepare(w, options) == RecordRendered(job.(rendered := 0));
    Unfold(w, ListRows(options), env, k);
    Unfold(w, RecordRendered(job.(rendered := 0)), env, k + 1);
    var w1 := Record(w, Rendered, text);
    Unfold(w1, WriteFile(job), env, k + 2);
    var w2 := w1.(file := Some(text));
    Unfold(w2, CheckFile(job), env, k + 3);
    Unfold(w2, RecordValidated(job), env, k + 4);
    var w3 := Record(w2, Validated, text);
    assert w3.log == w.log + [Generation(Rendered, text), Generation(Validated, text)];
    var w4, k4 := w3, k + 5;
    if options.applyNft {
      Unfold(w3, ApplyFile(job), env, k + 5);
      w4, k4 := w3.(live := w3.file), k + 6;
    }
    end, report := AppliedRestFinishes(w4, job, env, k4);
    forall id | id in w.table
      ensures w.table[id] in rows && w.table[id].id == id
    {
    }
  }

  // Whatever the world and the answers, a reconcile that is no dry run and reports success has
  // converged: it found an acceptable table without XDP rows, and did all that is prescribed.
  lemma SuccessMeansConverged(w: World, options: Options, env: Environment, k: nat)
    requires Keyed(w.table) && !options.dryRun && Finish(w, ListRows(options), env, k).1.Reported?
    ensures TableAccepts(w.table, w.config) && XdpRows(Listing(w.table)) == []
    ensures Converged(w, options, Finish(w, ListRows(options), env, k).0, Finish(w, ListRows(options), env, k).1.report)
  {
    hide Finish, Converged, Accepts, TableAccepts, Listing;
    var rows := Listing(w.table);
    ListingIsListing(w.table);
    ListingAccepted(w.table, rows, w.config);
    if !Accepts(rows, w.config) || !XdpAllows(options.xdp, rows) || XdpRows(rows) != [] {
      RefusedStartChangesNothing(w, options, env, k);
      assert false;
    } else {
      var last := Finish(w, ListRows(options), env, k).2;
      var good: Environment := j => if k <= j < last then env(j) else Answer(Good, false, 0);
      forall j: nat
        ensures good(j).kind == Good
      {
        if k <= j < last {
          SuccessNeedsEveryCall(w, ListRows(options), env, k, j);
        }
      }
      OtherAnswersIrrelevant(w, ListRows(options), env, good, k);
      var end, report := FaultFreeReconcile(w, options, good, k);
    }
  }

  // What a reconcile comes to, with its first answer given. A dry run changes nothing, and reports
  // the text and the number of XDP rows if it may; any other that reports success has converged; and
  // what it is not told to apply it leaves alone, whatever fails.
  ghost predicate ReconcileDone(w: World, options: Options, first: Answer, end: World, r: Ending) {
    && Spared(w, end, options)
    && (r.Reported? && !options.dryRun ==> Converged(w, options, end, r.report))
    && (options.dryRun ==>
          var ms := Listing(w.table);
          && end == w
          && r == if first.kind == Good && Accepts(ms, w.config) && XdpAllows(options.xdp, ms) then
                    Reported(Report(RulesText(ms, w.config), None, [], [], |XdpRows(ms)|))
                  else Errored)
  }

  lemma ReconcileIsDone(w: World, options: Options, env: Environment, k: nat)
    requires Keyed(w.table)
    ensures var (end, r, _) := Finish(w, ListRows(options), env, k); ReconcileDone(w, options, env(k), end, r)
  {
    hide Converged, Spared, Finish;
    PartialCallSpares(w, options, env, k);
    if options.dryRun {
      DryRunChangesNothing(w, options, env, k);
    } else if Finish(w, ListRows(options), env, k).1.Reported? {
      SuccessMeansConverged(w, options, env, k);
    }
  }

  // The part of the run after the rules are loaded.
  lemma AppliedRestFinishes(w: World, job: Job, env: Environment, k: nat) returns (end: World, report: Report)
    requires AllGood(env)
    requires forall m :: m in job.rows ==> m.id in w.table && w.table[m.id] == m
    ensures var full := job.options.applyNft && job.options.applyLinux;
            && end == w.(log := w.log + (if full then [Generation(Activated, job.text)] else []), table := end.table,
                         addrs := if job.options.applyLinux then AddressLoop.Applied(w.addrs, job.rows) else w.addrs,
                         added := end.added)
            && report == Report(job.text, Some(if full then |w.log| + 1 else job.rendered),
                                if job.options.applyLinux then Ups(w.addrs, job.rows) else [],
                                if job.options.applyLinux then Downs(w.addrs, job.rows) else [], 0)
            && (full ==> forall m :: m in job.rows && IsLive(m) ==> m.id in end.table && Checked(end.table[m.id]))
            && (!full ==> end.table == w.table)
    ensures Finish(w, AfterNft(job), env, k).0 == end && Finish(w, AfterNft(job), env, k).1 == Reported(report)
    ensures Calm(w.table, end.table) && (w.added == w.addrs ==> end.added == end.addrs)
    ensures forall id :: id in w.table && (forall m :: m in job.rows && IsLive(m) ==> m.id != id) ==>
              end.table[id] == w.table[id]
  {
    hide Finish, AddressFrom, ProbeFrom, AddressLoop.Applied, Checked, Quiet, IsLive;
    var w1, k1, ups, downs := w, k, [], [];
    if job.options.applyLinux {
      assert AddressLoop.Applied(w.addrs, job.rows[..0]) == w.addrs && Ups(w.addrs, job.rows[..0]) == []
             && Downs(w.addrs, job.rows[..0]) == [] by {
        NothingApplied(w.addrs, job.rows);
      }
      w1, k1 := MachineRunsLoop(w, w.addrs, job, 0, env, k);
      ups, downs := Ups(w.addrs, job.rows), Downs(w.addrs, job.rows);
    }
    if job.options.applyNft && job.options.applyLinux {
      Unfold(w1, RecordActive(job, ups, downs), env, k1);
      report := Report(job.text, Some(|w1.log| + 1), ups, downs, 0);
      assert job.rows[0..] == job.rows;
      var k2;
      end, k2 := MachineProbes(Record(w1, Activated, job.text), job, 0, report, env, k1 + 1);
    } else {
      report := Report(job.text, Some(job.rendered), ups, downs, 0);
      end := w1;
      assert w.log + [] == w.log;
      Unfold(w1, Announce(report), env, k1);
      AnnouncedIsFinished(w1, report, env(k1));
      Ended(w1, Reported(report), env, k1 + 1);
    }
  }

  lemma NothingApplied(addrs: set<Addr>, rows: seq<Mapping>)
    ensures AddressLoop.Applied(addrs, rows[..0]) == addrs
    ensures Ups(addrs, rows[..0]) == [] && Downs(addrs, rows[..0]) == []
  {
  }

  // ---- A repeated reconcile ----

  // The two lists agree in what the address loop looks at.
  ghost predicate SameAddresses(ms: seq<Mapping>, ns: seq<Mapping>) {
    && |ms| == |ns|
    && forall i :: 0 <= i < |ms| ==>
         ms[i].backend == ns[i].backend && ms[i].enabled == ns[i].enabled && ms[i].edgeIp == ns[i].edgeIp
  }

  lemma {:induction false} SameAddressesApplied(addrs: set<Addr>, ms: seq<Mapping>, ns: seq<Mapping>)
    requires SameAddresses(ms, ns)
    ensures AddressLoop.Applied(addrs, ms) == AddressLoop.Applied(addrs, ns)
    ensures Unmixed(ms) <==> Unmixed(ns)
  {
    if ms != [] {
      SameAddressesApplied(addrs, ms[..|ms| - 1], ns[..|ns| - 1]);
    }
  }

  lemma CalmAddresses(t: Table, u: Table)
    requires Keyed(t) && Keyed(u) && Calm(t, u)
    ensures SameAddresses(Listing(t), Listing(u)) && (XdpRows(Listing(t)) == [] <==> XdpRows(Listing(u)) == [])
  {
    hide Quiet, Listing;
    CalmListing(t, u);
    var ms, ns := Listing(t), Listing(u);
    forall i | 0 <= i < |ms|
      ensures ms[i].backend == ns[i].backend && ms[i].enabled == ns[i].enabled && ms[i].edgeIp == ns[i].edgeIp
    {
      SameQuiet(ms[i], ns[i]);
    }
    NoXdpRows(ms);
    NoXdpRows(ns);
  }

  lemma QuietIrrelevantToRules(m: Mapping, wan: string)
    ensures IsElement(Quiet(m)) == IsElement(m) && ElementOf(Quiet(m)) == ElementOf(m)
    ensures IsForward(Quiet(m)) == IsForward(m) && ForwardOf(Quiet(m), wan) == ForwardOf(m, wan)
  {
  }

  // Health reports change no rule.
  lemma {:induction false} QuietRules(ms: seq<Mapping>, ns: seq<Mapping>, wan: string)
    requires |ms| == |ns| && forall i :: 0 <= i < |ms| ==> Quiet(ms[i]) == Quiet(ns[i])
    ensures Elements(ms) == Elements(ns) && Forwards(ms, wan) == Forwards(ns, wan)
  {
    hide Quiet, ElementOf, ForwardOf, IsElement, IsForward;
    if ms != [] {
      QuietRules(ms[..|ms| - 1], ns[..|ns| - 1], wan);
      QuietIrrelevantToRules(ms[|ms| - 1], wan);
      QuietIrrelevantToRules(ns[|ns| - 1], wan);
    }
  }

  lemma CalmText(t: Table, u: Table, config: EdgeConfig)
    requires Keyed(t) && Keyed(u) && Calm(t, u)
    ensures RulesText(Listing(t), config) == RulesText(Listing(u), config)
  {
    hide Quiet, Listing, RulesetText, Calm;
    CalmListing(t, u);
    QuietRules(Listing(t), Listing(u), config.wan);
  }

  lemma NoXdpRows(ms: seq<Mapping>)
    ensures XdpRows(ms) == [] <==> forall i :: 0 <= i < |ms| ==> !IsXdp(ms[i])
  {
    if XdpRows(ms) != [] {
      assert XdpRows(ms)[0] in XdpRows(ms);
    }
  }

  // After a reconcile that reports success, a second one that does loads the same text again, and it
  // reports no change of an address exactly when no address is shared by an enabled and a disabled
  // nft row.
  lemma SecondReconcileReports(w: World, options: Options, env: Environment, k: nat, env': Environment, k': nat)
    requires Keyed(w.table) && FullApply(options) && Finish(w, ListRows(options), env, k).1.Reported?
    requires Finish(Finish(w, ListRows(options), env, k).0, ListRows(options), env', k').1.Reported?
    ensures var end := Finish(w, ListRows(options), env, k).0;
            var (end', outcome, _) := Finish(end, ListRows(options), env', k');
            && end'.live == end.live && end'.addrs == end.addrs
            && (outcome.report.added == [] && outcome.report.removed == [] <==> Unmixed(Listing(w.table)))
  {
    hide Finish, Listing, RulesText, TableAccepts, Calm, XdpRows, AddressLoop.Applied, Unmixed, SameAddresses;
    SuccessMeansConverged(w, options, env, k);
    var end := Finish(w, ListRows(options), env, k).0;
    CalmKeepsAccepted(w.table, end.table, w.config);
    CalmAddresses(w.table, end.table);
    CalmText(w.table, end.table, w.config);
    SuccessMeansConverged(end, options, env', k');
    var ms, ns := Listing(w.table), Listing(end.table);
    SameAddressesApplied(w.addrs, ms, ns);
    SecondRunIsQuiet(w.addrs, ns);
    LoopIsIdempotent(w.addrs, ns);
  }

  // ---- From rows to packets ----

  lemma CalmClaims(m: Mapping, n: Mapping, wan: string, p: Packet)
    requires Quiet(m) == Quiet(n)
    ensures Claims(m, wan, p) <==> Claims(n, wan, p)
    ensures Destination(m, p) == Destination(n, p)
  {
  }

  // The live text, read as an nft file, sends the packet where the row that claims it says, and
  // leaves it alone if no row does.
  ghost predicate Governed(live: Option<string>, t: Table, config: EdgeConfig, p: Packet) {
    && live.Some? && ReadFile(live.value).Some?
    && var file := ReadFile(live.value).value;
       && (forall id :: id in t && Claims(t[id], config.wan, p) ==> Prerouting(file, p) == Destination(t[id], p))
       && ((forall id :: id in t ==> !Claims(t[id], config.wan, p)) ==> Prerouting(file, p) == Untouched)
  }

  // From rows to packets: after a reconcile that applied the rules and reports success, the live text
  // read as an nft file sends every packet where the stored rows say, leaves every other packet alone,
  // and translates the source of exactly what leaves on the NetBird interface for a configured network.
  lemma StoredRowsGovernPackets(w: World, options: Options, env: Environment, k: nat, p: Packet, oif: string, ip: Addr)
    requires Keyed(w.table) && !options.dryRun && options.applyNft && Finish(w, ListRows(options), env, k).1.Reported?
    requires Quotable(w.config.wan) && Quotable(w.config.netbird)
    ensures var end := Finish(w, ListRows(options), env, k).0;
            && Governed(end.live, end.table, w.config, p)
            && var file := ReadFile(end.live.value).value;
               && file.table.Some? && file.destroyed == file.table
               && (Prerouting(file, p).Rewritten? ==>
                     Postrouting(file, w.config.netbird, Prerouting(file, p).ip))
               && (Postrouting(file, oif, ip) <==> oif == w.config.netbird && ContainsTarget(w.config, ip))
  {
    hide Finish, Claims, ReadFile, Prerouting, Postrouting, Accepts, TableAccepts, RulesText, Quiet, ContainsTarget;
    hide Compile, ValidateMapping, Checked;
    SuccessMeansConverged(w, options, env, k);
    var end := Finish(w, ListRows(options), env, k).0;
    var rows, text := Listing(w.table), RulesText(Listing(w.table), w.config);
    ListingIsListing(w.table);
    ListingAccepted(w.table, rows, w.config);
    RowsTextGoverns(rows, w.config);
    var file := ReadFile(text).value;
    forall id | id in end.table
      ensures w.table[id] in rows
      ensures Claims(end.table[id], w.config.wan, p) <==> Claims(w.table[id], w.config.wan, p)
      ensures Destination(end.table[id], p) == Destination(w.table[id], p)
    {
      CalmClaims(end.table[id], w.table[id], w.config.wan, p);
    }
    forall m | m in rows
      ensures m.id in end.table && m == w.table[m.id]
    {
    }
    if Prerouting(file, p).Rewritten? {
      var m :| m in rows && Claims(m, w.config.wan, p);
      RowTargetIsCovered(rows, m, w.config);
    }
  }

  lemma RowsTextGoverns(rows: seq<Mapping>, config: EdgeConfig)
    requires Accepts(rows, config) && Quotable(config.wan) && Quotable(config.netbird)
    ensures TextGoverns(RulesText(rows, config), rows, config)
  {
    hide Accepts, Compile, RulesetText, TextGoverns;
    AcceptedTextGoverns(rows, config, TABLE_NAME);
  }

  lemma RowTargetIsCovered(rows: seq<Mapping>, m: Mapping, config: EdgeConfig)
    requires Accepts(rows, config) && m in rows
    ensures ContainsTarget(config, m.targetIp)
  {
    hide ValidateMapping;
    AcceptedTargetIsCovered(m, config);
  }
}
