// The reconciler as it runs: calls in sequence with early exits, changing the host step by step.
// Each method is proved to run the machine of `Reconciling`.
module Reconcilers {
  import opened Wrappers
  import opened Addresses
  import opened Mappings
  import opened Validation
  import opened Ruleset
  import opened Render
  import opened Renderer
  import opened Tables
  import opened Xdp
  import opened Reconciling
  import opened Convergence

  // One host: the stored rows and generations, the rendered file, the kernel table and the
  // addresses of the WAN interface. `env` answers the calls in the order they are made.
  class Host {
    const config: EdgeConfig
    const env: Environment
    var table: Table
    var log: seq<Generation>
    var file: Option<string>
    var live: Option<string>
    var addrs: set<Addr>
    ghost var added: set<Addr>
    var asked: nat

    constructor (config: EdgeConfig, env: Environment, table: Table, addrs: set<Addr>)
      ensures State() == World(config, table, [], None, None, addrs, {}) && asked == 0
      ensures this.env == env
    {
      this.config, this.env, this.table, this.addrs := config, env, table, addrs;
      log, file, live, added, asked := [], None, None, {}, 0;
    }

    ghost function State(): World
      reads this
    {
      World(config, table, log, file, live, addrs, added)
    }

    // What the rest of a call that stands at `pc` amounts to.
    ghost function Rest(pc: Pc): (World, Ending, nat)
      reads this
    {
      Finish(State(), pc, env, asked)
    }

    method Ask() returns (a: Answer)
      modifies this`asked
      ensures a == env(old(asked)) && asked == old(asked) + 1
    {
      a := env(asked);
      asked := asked + 1;
    }

    // Records a row, unless the statement fails.
    method RecordGeneration(status: GenerationStatus, text: string) returns (ok: bool)
      modifies this`asked, this`log
      ensures asked == old(asked) + 1 && ok == (env(old(asked)).kind == Good)
      ensures State() == if ok then Record(old(State()), status, text) else old(State())
    {
      var a := Ask();
      ok := a.kind == Good;
      if ok {
        log := log + [Generation(status, text)];
      }
    }

    method Reconcile(options: Options) returns (r: Ending)
      requires Keyed(table)
      modifies this
      ensures (State(), r, asked) == old(Rest(ListRows(options)))
      ensures ReconcileDone(old(State()), options, env(old(asked)), State(), r)
    {
      hide ReconcileDone;
      ReconcileIsDone(State(), options, env, asked);
      hide Finish, Listing, Accepts, PlanOf, RulesText, AddressFrom, ProbeFrom;
      Unfold(State(), ListRows(options), env, asked);
      var a := Ask();
      if a.kind != Good {
        r := Stop(Errored);
        return;
      }
      var rows := SortRows(table);
      var rendered := RenderNftables(rows, config, TABLE_NAME);
      var plan := MakePlan(options.xdp, rows, config);
      if rendered.Failure? || plan.Failure? {
        r := Stop(Errored);
        return;
      }
      RenderedIsRulesText(rows, config, rendered.value);
      if options.dryRun {
        r := Stop(Reported(Report(rendered.value, None, [], [], |plan.value.entries|)));
        return;
      }
      if plan.value.entries != [] {
        r := Stop(Errored);
        return;
      }
      r := Push(Job(rows, rendered.value, options, 0));
    }

    lemma RenderedIsRulesText(rows: seq<Mapping>, config: EdgeConfig, text: string)
      requires text == RulesetText(Compile(rows, config, TABLE_NAME))
      ensures text == RulesText(rows, config)
    {
    }

    method Stop(outcome: Ending) returns (r: Ending)
      ensures r == outcome && (State(), r, asked) == Rest(Finished(outcome))
    {
      Ended(State(), outcome, env, asked);
      r := outcome;
    }

    // From the first generation row to the writing of the file.
    method Push(job0: Job) returns (r: Ending)
      modifies this
      ensures (State(), r, asked) == old(Rest(RecordRendered(job0)))
    {
      hide Finish, Prepare, AddressFrom, ProbeFrom, ShowStep, ChangeStep, ProbeStep;
      Unfold(State(), RecordRendered(job0), env, asked);
      var ok := RecordGeneration(Rendered, job0.text);
      if !ok {
        r := Stop(Errored);
        return;
      }
      var job := job0.(rendered := |log|);
      Unfold(State(), WriteFile(job), env, asked);
      var a := Ask();
      if a.kind != Good {
        r := Fail(job);
        return;
      }
      file := Some(job.text);
      r := Check(job);
    }

    // The check of the written file, and what follows it.
    method Check(job: Job) returns (r: Ending)
      modifies this
      ensures (State(), r, asked) == old(Rest(CheckFile(job)))
    {
      hide Finish, Prepare, AddressFrom, ProbeFrom, ShowStep, ChangeStep, ProbeStep;
      Unfold(State(), CheckFile(job), env, asked);
      var a := Ask();
      if a.kind == Refused {
        r := Fail(job);
        return;
      } else if a.kind != Good {
        r := Stop(Errored);
        return;
      }
      Unfold(State(), RecordValidated(job), env, asked);
      var ok := RecordGeneration(Validated, job.text);
      if !ok {
        r := Stop(Errored);
        return;
      }
      r := Apply(job);
    }

    method Fail(job: Job) returns (r: Ending)
      modifies this
      ensures (State(), r, asked) == old(Rest(RecordFailure(job)))
    {
      hide Finish;
      Unfold(State(), RecordFailure(job), env, asked);
      var ok := RecordGeneration(Failed, job.text);
      r := Stop(Errored);
    }

    method Apply(job: Job) returns (r: Ending)
      modifies this
      ensures (State(), r, asked) == old(Rest(if job.options.applyNft then ApplyFile(job) else AfterNft(job)))
    {
      hide Finish, Prepare, AddressFrom, ProbeFrom, ShowStep, ChangeStep, ProbeStep;
      if job.options.applyNft {
        Unfold(State(), ApplyFile(job), env, asked);
        var a := Ask();
        if file.None? || a.kind == Refused {
          r := Fail(job);
          return;
        }
        if a.kind == Good || a.kind == LostWithEffect {
          live := file;
        }
        if a.kind != Good {
          r := Stop(Errored);
          return;
        }
      }
      var ok, ups, downs := true, [], [];
      if job.options.applyLinux {
        ok, ups, downs := PushAddresses(job);
      }
      if !ok {
        r := Stop(Errored);
        return;
      }
      r := Activate(job, ups, downs);
    }

    // The address loop: present for each enabled nft row, absent for each disabled one.
    method PushAddresses(job: Job) returns (ok: bool, ups: seq<Addr>, downs: seq<Addr>)
      modifies this`addrs, this`added, this`asked
      ensures Rest(if ok then AfterAddresses(job, ups, downs) else Finished(Errored))
              == old(Rest(AddressFrom(job, 0, [], [])))
    {
      hide Finish, Prepare, ProbeFrom, ProbeStep;
      ok, ups, downs := true, [], [];
      for i := 0 to |job.rows|
        invariant ok
        invariant Rest(AddressFrom(job, i, ups, downs)) == old(Rest(AddressFrom(job, 0, [], [])))
      {
        var m := job.rows[i];
        if m.backend == Nft {
          ghost var pc := AddressFrom(job, i, ups, downs);
          Unfold(State(), pc, env, asked);
          var a := Ask();
          if a.kind != Good {
            ok := false;
            return;
          }
          if m.enabled != (m.edgeIp in addrs) {
            Unfold(State(), ChangeAddr(job, i, ups, downs), env, asked);
            a := Ask();
            if a.kind == Good || a.kind == LostWithEffect {
              if m.enabled {
                addrs, added := addrs + {m.edgeIp}, added + {m.edgeIp};
              } else {
                addrs, added := addrs - {m.edgeIp}, added - {m.edgeIp};
              }
            }
            if a.kind != Good {
              ok := false;
              return;
            }
            if m.enabled {
              ups := ups + [m.edgeIp];
            } else {
              downs := downs + [m.edgeIp];
            }
          }
        }
      }
    }

    // Records the active generation and probes every live row.
    method Activate(job: Job, ups: seq<Addr>, downs: seq<Addr>) returns (r: Ending)
      modifies this
      ensures (State(), r, asked) == old(Rest(AfterAddresses(job, ups, downs)))
    {
      hide Finish, Prepare, ProbeFrom, ShowStep, ChangeStep, ProbeStep;
      var report := Report(job.text, Some(job.rendered), ups, downs, 0);
      if job.options.applyNft && job.options.applyLinux {
        Unfold(State(), RecordActive(job, ups, downs), env, asked);
        var recorded := RecordGeneration(Activated, job.text);
        if !recorded {
          r := Stop(Errored);
          return;
        }
        report := report.(generation := Some(|log|));
        var ok := ProbeRows(job, report);
        if !ok {
          r := Stop(Errored);
          return;
        }
      }
      Unfold(State(), Announce(report), env, asked);
      var a := Ask();
      r := Stop(if a.kind == Good then Reported(report) else Errored);
    }

    method ProbeRows(job: Job, report: Report) returns (ok: bool)
      modifies this`table, this`asked
      ensures Rest(if ok then Announce(report) else Finished(Errored)) == old(Rest(ProbeFrom(job, 0, report)))
    {
      hide Finish;
      ok := true;
      for i := 0 to |job.rows|
        invariant ok
        invariant Rest(ProbeFrom(job, i, report)) == old(Rest(ProbeFrom(job, 0, report)))
      {
        var m := job.rows[i];
        if IsLive(m) {
          Unfold(State(), Probe(job, i, report), env, asked);
          var a := Ask();
          if (a.kind == Good && m.id in table) || a.kind == LostWithEffect {
            var healthy := m.protocol == Udp || m.targetPort.None? || a.reachable;
            var health := if m.protocol == Udp then "udp_unchecked" else if m.targetPort.None? then "ok"
                          else if a.reachable then "tcp_ok" else "degraded";
            table := HealthStatement(table, m.id, if healthy then Active else Degraded, Some(health),
                                     if healthy then None else Some("unreachable"), a.now);
            ok := a.kind == Good;
          } else {
            ok := false;
          }
          if !ok {
            return;
          }
        }
      }
    }

    method Rollback(generation: int) returns (r: Ending)
      modifies this
      ensures (State(), r, asked) == old(Rest(FetchGeneration(generation)))
    {
      hide Finish, Prepare, AddressFrom, ProbeFrom, ShowStep, ChangeStep, ProbeStep;
      Unfold(State(), FetchGeneration(generation), env, asked);
      var a := Ask();
      if a.kind != Good || !(1 <= generation <= |log|) {
        r := Stop(Errored);
        return;
      }
      var text := log[generation - 1].text;
      Unfold(State(), RestoreFile(text), env, asked);
      a := Ask();
      if a.kind != Good {
        r := Stop(Errored);
        return;
      }
      file := Some(text);
      r := Restore(text);
    }

    method Restore(text: string) returns (r: Ending)
      requires file.Some?
      modifies this
      ensures (State(), r, asked) == old(Rest(RestoreCheck(text)))
    {
      hide Finish, Prepare, AddressFrom, ProbeFrom, ShowStep, ChangeStep, ProbeStep;
      Unfold(State(), RestoreCheck(text), env, asked);
      var a := Ask();
      if a.kind != Good {
        r := Stop(Errored);
        return;
      }
      r := LoadRestored(text);
    }

    method LoadRestored(text: string) returns (r: Ending)
      requires file.Some?
      modifies this
      ensures (State(), r, asked) == old(Rest(RestoreApply(text)))
    {
      hide Finish, Prepare, AddressFrom, ProbeFrom, ShowStep, ChangeStep, ProbeStep;
      Unfold(State(), RestoreApply(text), env, asked);
      var a := Ask();
      if a.kind == Good || a.kind == LostWithEffect {
        live := file;
      }
      if a.kind != Good {
        r := Stop(Errored);
        return;
      }
      Unfold(State(), RestoreAnnounce, env, asked);
      a := Ask();
      r := Stop(if a.kind == Good then Restored else Errored);
    }
  }
}
