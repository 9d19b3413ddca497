// What a reconcile leaves alone that is told to do less: a dry run changes nothing, and a call that
// does not apply rules or addresses does not touch them, whatever fails.
module PartialRuns {
  import opened Wrappers
  import opened Addresses
  import opened Mappings
  import opened Validation
  import opened Render
  import opened Tables
  import opened Xdp
  import opened Reconciling
  import Text

  // ---- Dry runs ----

  // The XDP settings allow a plan: switched on they name an interface and an absolute path, and
  // switched off no enabled row asks for XDP.
  predicate XdpAllows(xdp: XdpConfig, ms: seq<Mapping>) {
    if xdp.enabled then Text.Trim(xdp.iface) != "" && xdp.pinPath != "" && xdp.pinPath[0] == '/'
    else forall m :: m in ms ==> !(m.enabled && m.backend == Backend.Xdp)
  }

  lemma XdpAllowsExactly(xdp: XdpConfig, ms: seq<Mapping>, config: EdgeConfig)
    requires Accepts(ms, config)
    ensures PlanOf(xdp, ms, config).Success? <==> XdpAllows(xdp, ms)
    ensures PlanOf(xdp, ms, config).Success? ==> |PlanOf(xdp, ms, config).value.entries| == |XdpRows(ms)|
  {
    hide Accepts, PlanEntries;
    AcceptedRowsPlan(ms, config);
    AcceptedListPlans(xdp, ms, config);
    if XdpRows(ms) != [] {
      assert XdpRows(ms)[0] in XdpRows(ms);
    }
  }

  // A dry run makes one call and changes nothing. It reports the text of the listing, no generation,
  // no addresses and the number of XDP rows, exactly when that call is answered, the list is accepted
  // and the XDP settings allow a plan.
  lemma DryRunChangesNothing(w: World, options: Options, env: Environment, k: nat)
    requires options.dryRun
    ensures var ms := Listing(w.table);
            Finish(w, ListRows(options), env, k)
            == (w,
                if env(k).kind == Good && Accepts(ms, w.config) && XdpAllows(options.xdp, ms) then
                  Reported(Report(RulesText(ms, w.config), None, [], [], |XdpRows(ms)|))
                else Errored,
                k + 1)
  {
    hide Finish, Accepts, Listing, RulesText, PlanOf, XdpAllows;
    var ms := Listing(w.table);
    if Accepts(ms, w.config) {
      XdpAllowsExactly(options.xdp, ms, w.config);
    }
    Unfold(w, ListRows(options), env, k);
    forall outcome: Ending
      ensures Finish(w, Finished(outcome), env, k + 1) == (w, outcome, k + 1)
    {
      Ended(w, outcome, env, k + 1);
    }
  }

  // A call that is refused before it starts, dry or not, changes nothing either; so is every call
  // that would have to apply XDP rows.
  lemma RefusedStartChangesNothing(w: World, options: Options, env: Environment, k: nat)
    requires var ms := Listing(w.table);
             || env(k).kind != Good || !Accepts(ms, w.config) || !XdpAllows(options.xdp, ms)
             || (!options.dryRun && XdpRows(ms) != [])
    ensures Finish(w, ListRows(options), env, k) == (w, Errored, k + 1)
  {
    hide Finish, Accepts, Listing, RulesText, PlanOf, XdpAllows;
    var ms := Listing(w.table);
    if Accepts(ms, w.config) {
      XdpAllowsExactly(options.xdp, ms, w.config);
    }
    Unfold(w, ListRows(options), env, k);
    Ended(w, Errored, env, k + 1);
  }

  // ---- Partial runs ----

  // Where a reconcile with these options can stand.
  predicate Within(pc: Pc, options: Options) {
    match pc
    case ListRows(o) => o == options
    case RecordRendered(job) => job.options == options
    case WriteFile(job) => job.options == options
    case CheckFile(job) => job.options == options
    case RecordFailure(job) => true
    case RecordValidated(job) => job.options == options
    case ApplyFile(job) => job.options == options && options.applyNft
    case ShowAddrs(job, _, _, _) => job.options == options && options.applyLinux
    case ChangeAddr(job, _, _, _) => job.options == options && options.applyLinux
    case RecordActive(job, _, _) => options.applyNft && options.applyLinux
    case Probe(_, _, _) => options.applyNft && options.applyLinux
    case Announce(_) => true
    case Finished(_) => true
    case _ => false
  }

  // No active generation is among the rows that were added.
  ghost predicate NoneActivated(log: seq<Generation>, log': seq<Generation>) {
    log <= log' && forall i :: |log| <= i < |log'| ==> log'[i].status != Activated
  }

  // What such a call leaves alone.
  ghost predicate Spared(w: World, w': World, options: Options) {
    && (!options.applyNft ==> w'.live == w.live)
    && (!options.applyLinux ==> w'.addrs == w.addrs && w'.added == w.added)
    && (!(options.applyNft && options.applyLinux) ==> w'.table == w.table && NoneActivated(w.log, w'.log))
  }

  lemma {:induction false} WithinAddresses(job: Job, i: nat, ups: seq<Addr>, downs: seq<Addr>)
    requires job.options.applyLinux
    ensures Within(AddressFrom(job, i, ups, downs), job.options)
    decreases |job.rows| - i
  {
    if i < |job.rows| && job.rows[i].backend != Nft {
      WithinAddresses(job, i + 1, ups, downs);
    }
  }

  lemma {:induction false} WithinProbes(job: Job, i: nat, report: Report, options: Options)
    requires options.applyNft && options.applyLinux
    ensures Within(ProbeFrom(job, i, report), options)
    decreases |job.rows| - i
  {
    if i < |job.rows| && !IsLive(job.rows[i]) {
      WithinProbes(job, i + 1, report, options);
    }
  }

  lemma WithinPrepare(w: World, options: Options)
    ensures Within(Prepare(w, options), options)
  {
  }

  lemma LoopStepSpares(w: World, pc: Pc, a: Answer, options: Options)
    requires Within(pc, options) && InLoop(pc)
    ensures Within(Step(w, pc, a).1, options) && Spared(w, Step(w, pc, a).0, options)
  {
    hide Prepare, AddressFrom, ProbeFrom, Probed;
    match pc
    case ShowAddrs(job, i, ups, downs) => WithinAddresses(job, i + 1, ups, downs);
    case ChangeAddr(job, i, ups, downs) =>
      if i < |job.rows| {
        WithinAddresses(job, i + 1, ups + [job.rows[i].edgeIp], downs);
        WithinAddresses(job, i + 1, ups, downs + [job.rows[i].edgeIp]);
      }
    case Probe(job, i, report) =>
      WithinProbes(job, i + 1, report, options);
      ProbeSpares(w, job, i, a);
  }

  lemma ProbeSpares(w: World, job: Job, i: nat, a: Answer)
    ensures i < |job.rows| ==> Probed(w, job.rows[i], a) == w.(table := Probed(w, job.rows[i], a).table)
  {
  }

  lemma StepSpares(w: World, pc: Pc, a: Answer, options: Options)
    requires Within(pc, options)
    ensures Within(Step(w, pc, a).1, options) && Spared(w, Step(w, pc, a).0, options)
  {
    hide Prepare, AddressFrom, ProbeFrom, ShowStep, ChangeStep, ProbeStep;
    match pc
    case ListRows(_) => WithinPrepare(w, options);
    case RecordValidated(job) =>
      if options.applyLinux {
        WithinAddresses(job, 0, [], []);
      }
    case ApplyFile(job) =>
      if options.applyLinux {
        WithinAddresses(job, 0, [], []);
      }
    case RecordActive(job, ups, downs) =>
      WithinProbes(job, 0, Report(job.text, Some(|w.log| + 1), ups, downs, 0), options);
    case _ =>
      if InLoop(pc) {
        LoopStepSpares(w, pc, a, options);
      }
  }

  lemma SparedAgain(w: World, w': World, w'': World, options: Options)
    requires Spared(w, w', options) && Spared(w', w'', options)
    ensures Spared(w, w'', options)
  {
  }

  // Whatever fails and wherever it is cut off, a reconcile that is not told to apply the rules keeps
  // the live table, one that is not told to apply the addresses keeps them, and one that is not told
  // both logs no active generation and changes no row.
  lemma {:induction false} PartialRunSpares(
    w: World, pc: Pc, options: Options, env: Environment, k: nat, n: nat)
    requires Within(pc, options)
    ensures Spared(w, Steps(w, pc, env, k, n).0, options)
    decreases n
  {
    hide Step, Within, Spared;
    if n == 0 {
      SparesItself(w, options);
    } else {
      var (w', pc') := Step(w, pc, env(k));
      StepSpares(w, pc, env(k), options);
      PartialRunSpares(w', pc', options, env, k + 1, n - 1);
      SparedAgain(w, w', Steps(w', pc', env, k + 1, n - 1).0, options);
    }
  }

  lemma SparesItself(w: World, options: Options)
    ensures Spared(w, w, options)
  {
  }

  // The same for the whole call.
  lemma PartialCallSpares(w: World, options: Options, env: Environment, k: nat)
    ensures Spared(w, Finish(w, ListRows(options), env, k).0, options)
  {
    hide Finish, Steps, Spared;
    FinishIsSteps(w, ListRows(options), env, k);
    PartialRunSpares(w, ListRows(options), options, env, k, Finish(w, ListRows(options), env, k).2 - k);
  }

  // ---- Success ----

  lemma BadAnswerFails(w: World, pc: Pc, a: Answer)
    requires !pc.Finished? && (a.kind != Good || pc.RecordFailure?)
    ensures Step(w, pc, a).1 == Finished(Errored) || Step(w, pc, a).1.RecordFailure?
  {
    hide Prepare, AddressFrom, ProbeFrom, Probed, WithAddr;
  }

  // A reconcile or a rollback reports success only if every call it made succeeded.
  lemma {:induction false} SuccessNeedsEveryCall(w: World, pc: Pc, env: Environment, k: nat, j: nat)
    requires !Finish(w, pc, env, k).1.Errored? && k <= j < Finish(w, pc, env, k).2
    ensures env(j).kind == Good && !pc.RecordFailure?
    decreases Phase(pc), Left(pc)
  {
    hide Step, Finish;
    if pc.Finished? {
      Ended(w, pc.outcome, env, k);
      assert false;
    } else {
      StepProgress(w, pc, env(k));
      var (w', pc') := Step(w, pc, env(k));
      Unfold(w, pc, env, k);
      if env(k).kind != Good || pc.RecordFailure? {
        BadAnswerFails(w, pc, env(k));
        if pc' == Finished(Errored) {
          Ended(w', Errored, env, k + 1);
        } else {
          FailureIsLogged(w', pc'.job, env, k + 1);
        }
        assert false;
      } else if j > k {
        SuccessNeedsEveryCall(w', pc', env, k + 1, j);
      }
    }
  }

  // What a call does is settled by the answers it takes.
  lemma {:induction false} OtherAnswersIrrelevant(w: World, pc: Pc, env: Environment, other: Environment, k: nat)
    requires forall j :: k <= j < Finish(w, pc, env, k).2 ==> other(j) == env(j)
    ensures Finish(w, pc, other, k) == Finish(w, pc, env, k)
    decreases Phase(pc), Left(pc)
  {
    hide Step, Finish;
    if pc.Finished? {
      Ended(w, pc.outcome, env, k);
      Ended(w, pc.outcome, other, k);
    } else {
      StepProgress(w, pc, env(k));
      var (w', pc') := Step(w, pc, env(k));
      Unfold(w, pc, env, k);
      Unfold(w, pc, other, k);
      FinishIsSteps(w', pc', env, k + 1);
      OtherAnswersIrrelevant(w', pc', env, other, k + 1);
    }
  }

  // ---- Failures are logged ----

  // The failed generation is recorded when the database answers.
  lemma FailureIsLogged(w: World, job: Job, env: Environment, k: nat)
    ensures Finish(w, RecordFailure(job), env, k)
            == (if env(k).kind == Good then w.(log := w.log + [Generation(Failed, job.text)]) else w, Errored, k + 1)
  {
    hide Finish;
    Unfold(w, RecordFailure(job), env, k);
    Ended(Step(w, RecordFailure(job), env(k)).0, Errored, env, k + 1);
  }

  // When the file cannot be written, or its check or its load is refused, the call errs, nothing is
  // loaded, and a failed generation of the text follows in the log when the database answers.
  lemma RefusalsAreLogged(w: World, job: Job, env: Environment, k: nat)
    ensures var failed := Generation(Failed, job.text);
            && (env(k).kind != Good && env(k + 1).kind == Good ==>
                  Finish(w, WriteFile(job), env, k) == (w.(log := w.log + [failed]), Errored, k + 2))
            && (env(k).kind == Refused && env(k + 1).kind == Good ==>
                  Finish(w, CheckFile(job), env, k) == (w.(log := w.log + [failed]), Errored, k + 2))
            && (env(k).kind == Refused && env(k + 1).kind == Good ==>
                  Finish(w, ApplyFile(job), env, k) == (w.(log := w.log + [failed]), Errored, k + 2))
  {
    hide Finish, Prepare, AddressFrom, ProbeFrom, ShowStep, ChangeStep, ProbeStep;
    Unfold(w, WriteFile(job), env, k);
    Unfold(w, CheckFile(job), env, k);
    Unfold(w, ApplyFile(job), env, k);
    FailureIsLogged(w, job, env, k + 1);
  }

  // A call that starts, started from its first row in the log.
  lemma StartedCall(w: World, options: Options, env: Environment, k: nat)
    requires var ms := Listing(w.table);
             && env(k).kind == env(k + 1).kind == Good && !options.dryRun
             && Accepts(ms, w.config) && XdpAllows(options.xdp, ms) && XdpRows(ms) == []
    ensures var text := RulesText(Listing(w.table), w.config);
            Finish(w, ListRows(options), env, k)
            == Finish(w.(log := w.log + [Generation(Rendered, text)]),
                      WriteFile(Job(Listing(w.table), text, options, |w.log| + 1)), env, k + 2)
  {
    hide Finish, Accepts, Listing, RulesText, PlanOf, XdpAllows;
    var ms := Listing(w.table);
    XdpAllowsExactly(options.xdp, ms, w.config);
    Unfold(w, ListRows(options), env, k);
    Unfold(w, RecordRendered(Job(ms, RulesText(ms, w.config), options, 0)), env, k + 1);
  }

  // A call that starts and then cannot write its file leaves two rows in the log, the second one
  // failed, and nothing else of it.
  lemma UnwrittenFileIsLogged(w: World, options: Options, env: Environment, k: nat)
    requires var ms := Listing(w.table);
             && env(k).kind == env(k + 1).kind == Good && !options.dryRun
             && Accepts(ms, w.config) && XdpAllows(options.xdp, ms) && XdpRows(ms) == []
    requires env(k + 2).kind != Good && env(k + 3).kind == Good
    ensures var text := RulesText(Listing(w.table), w.config);
            Finish(w, ListRows(options), env, k)
            == (w.(log := w.log + [Generation(Rendered, text), Generation(Failed, text)]), Errored, k + 4)
  {
    hide Finish, Accepts, Listing, RulesText, XdpAllows;
    StartedCall(w, options, env, k);
    var ms, text := Listing(w.table), RulesText(Listing(w.table), w.config);
    var w' := w.(log := w.log + [Generation(Rendered, text)]);
    RefusalsAreLogged(w', Job(ms, text, options, |w.log| + 1), env, k + 2);
    assert w'.log + [Generation(Failed, text)] == w.log + [Generation(Rendered, text), Generation(Failed, text)];
  }
}
