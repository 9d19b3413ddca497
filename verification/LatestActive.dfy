// Serial reconciles: when the latest active generation describes the live table.
module LatestActive {
  import opened Wrappers
  import opened Addresses
  import opened Mappings
  import opened Tables
  import opened Reconciling

  // The text of the latest active generation.
  function LatestActive(log: seq<Generation>): Option<string> {
    if log == [] then None
    else if log[|log| - 1].status == Activated then Some(log[|log| - 1].text)
    else LatestActive(log[..|log| - 1])
  }

  // A validated generation was recorded after the latest active one.
  predicate ValidatedSince(log: seq<Generation>) {
    log != [] && log[|log| - 1].status != Activated
    && (log[|log| - 1].status == Validated || ValidatedSince(log[..|log| - 1]))
  }

  ghost predicate LiveIsLatestActive(w: World) {
    !ValidatedSince(w.log) && LatestActive(w.log).Some? ==> w.live == LatestActive(w.log)
  }

  lemma LogSnoc(log: seq<Generation>, g: Generation)
    ensures LatestActive(log + [g]) == if g.status == Activated then Some(g.text) else LatestActive(log)
    ensures ValidatedSince(log + [g])
            <==> g.status == Validated || (g.status != Activated && ValidatedSince(log))
  {
  }

  // What holds while one reconcile runs alone: from the written file on the file is its own, and
  // from the validated row on that row is pending.
  ghost predicate Alone(w: World, pc: Pc) {
    && LiveIsLatestActive(w)
    && match pc
       case CheckFile(job) => w.file == Some(job.text)
       case RecordValidated(job) => w.file == Some(job.text)
       case ApplyFile(job) => w.file == Some(job.text) && ValidatedSince(w.log)
       case ShowAddrs(job, _, _, _) => Unlogged(w, job)
       case ChangeAddr(job, _, _, _) => Unlogged(w, job)
       case RecordActive(job, _, _) => Unlogged(w, job) && job.options.applyNft
       case FetchGeneration(_) => false
       case RestoreFile(_) => false
       case RestoreCheck(_) => false
       case RestoreApply(_) => false
       case RestoreAnnounce => false
       case _ => true
  }

  ghost predicate Unlogged(w: World, job: Job) {
    ValidatedSince(w.log) && (job.options.applyNft ==> w.live == Some(job.text))
  }

  lemma {:induction false} AloneFromAddress(w: World, job: Job, i: nat, ups: seq<Addr>, downs: seq<Addr>)
    requires LiveIsLatestActive(w) && Unlogged(w, job)
    ensures Alone(w, AddressFrom(job, i, ups, downs))
    decreases |job.rows| - i
  {
    if i < |job.rows| && job.rows[i].backend != Nft {
      AloneFromAddress(w, job, i + 1, ups, downs);
    }
  }

  lemma {:induction false} AloneFromProbe(w: World, job: Job, i: nat, report: Report)
    requires LiveIsLatestActive(w)
    ensures Alone(w, ProbeFrom(job, i, report))
    decreases |job.rows| - i
  {
    if i < |job.rows| && !IsLive(job.rows[i]) {
      AloneFromProbe(w, job, i + 1, report);
    }
  }

  lemma RecordStaysAlone(w: World, pc: Pc, a: Answer)
    requires Alone(w, pc) && a.kind == Good
    requires pc.RecordRendered? || pc.RecordFailure? || pc.RecordValidated? || pc.RecordActive?
    ensures Alone(Step(w, pc, a).0, Step(w, pc, a).1)
  {
    hide AddressFrom, ProbeFrom, LatestActive, ValidatedSince;
    match pc
    case RecordRendered(job) => LogSnoc(w.log, Generation(Rendered, job.text));
    case RecordFailure(job) => LogSnoc(w.log, Generation(Failed, job.text));
    case RecordValidated(job) =>
      LogSnoc(w.log, Generation(Validated, job.text));
      if !job.options.applyNft {
        AloneFromAddress(Record(w, Validated, job.text), job, 0, [], []);
      }
    case RecordActive(job, ups, downs) =>
      LogSnoc(w.log, Generation(Activated, job.text));
      AloneFromProbe(Record(w, Activated, job.text), job, 0, Report(job.text, Some(|w.log| + 1), ups, downs, 0));
  }

  lemma CallStaysAlone(w: World, pc: Pc, a: Answer)
    requires Alone(w, pc)
    requires a.kind == Good ==>
               !(pc.RecordRendered? || pc.RecordFailure? || pc.RecordValidated? || pc.RecordActive?)
    ensures Alone(Step(w, pc, a).0, Step(w, pc, a).1)
  {
    hide Prepare, AddressFrom, ProbeFrom, LatestActive, ValidatedSince;
    var w' := Step(w, pc, a).0;
    match pc
    case ListRows(options) =>
      PrepareIsAlone(w, options);
    case ApplyFile(job) =>
      if a.kind == Good {
        AloneFromAddress(w', job, 0, [], []);
      }
    case ShowAddrs(job, i, ups, downs) =>
      AloneFromAddress(w', job, i + 1, ups, downs);
    case ChangeAddr(job, i, ups, downs) =>
      if i < |job.rows| {
        AloneFromAddress(w', job, i + 1, ups + [job.rows[i].edgeIp], downs);
        AloneFromAddress(w', job, i + 1, ups, downs + [job.rows[i].edgeIp]);
      }
    case Probe(job, i, report) =>
      AloneFromProbe(w', job, i + 1, report);
    case _ =>
  }

  lemma PrepareIsAlone(w: World, options: Options)
    requires LiveIsLatestActive(w)
    ensures Alone(w, Prepare(w, options))
  {
  }

  lemma {:induction false} StepsStayAlone(w: World, pc: Pc, env: Environment, k: nat, n: nat)
    requires Alone(w, pc)
    ensures Alone(Steps(w, pc, env, k, n).0, Steps(w, pc, env, k, n).1)
    decreases n
  {
    hide Step, Alone;
    if n > 0 {
      StepStaysAlone(w, pc, env(k));
      StepsStayAlone(Step(w, pc, env(k)).0, Step(w, pc, env(k)).1, env, k + 1, n - 1);
    }
  }

  lemma StepStaysAlone(w: World, pc: Pc, a: Answer)
    requires Alone(w, pc)
    ensures Alone(Step(w, pc, a).0, Step(w, pc, a).1)
  {
    hide Step, Alone;
    if a.kind == Good && (pc.RecordRendered? || pc.RecordFailure? || pc.RecordValidated? || pc.RecordActive?) {
      RecordStaysAlone(w, pc, a);
    } else {
      CallStaysAlone(w, pc, a);
    }
  }

  // A serial history: reconciles one after another, each cut off after some number of calls, and
  // changes of the rows between them.
  datatype Episode =
    | Reconciled(options: Options, env: Environment, calls: nat)
    | RowsChanged(table: Table)

  ghost function AfterEpisode(w: World, e: Episode): World {
    match e
    case Reconciled(options, env, calls) => Steps(w, ListRows(options), env, 0, calls).0
    case RowsChanged(table) => w.(table := table)
  }

  ghost function Play(w: World, episodes: seq<Episode>): World
    decreases |episodes|
  {
    if episodes == [] then w else Play(AfterEpisode(w, episodes[0]), episodes[1..])
  }

  lemma PlayThree(w: World, first: Episode, second: Episode, third: Episode)
    ensures Play(w, [first, second, third]) == AfterEpisode(AfterEpisode(AfterEpisode(w, first), second), third)
  {
    hide AfterEpisode;
    assert [first, second, third][1..] == [second, third] && [second, third][1..] == [third] && [third][1..] == [];
    var w1 := AfterEpisode(w, first);
    assert Play(w1, [second, third]) == Play(AfterEpisode(w1, second), [third]);
  }

  // In every serial history without rollback, wherever calls fail or are cut off: when no validated
  // row follows the latest active row, the live table holds exactly that generation's text.
  lemma {:induction false} LiveMatchesLatestActive(w: World, episodes: seq<Episode>)
    requires LiveIsLatestActive(w)
    ensures LiveIsLatestActive(Play(w, episodes))
    decreases |episodes|
  {
    hide LiveIsLatestActive, Step;
    if episodes != [] {
      match episodes[0] {
        case Reconciled(options, env, calls) =>
          StartsAlone(w, options);
          StepsStayAlone(w, ListRows(options), env, 0, calls);
          AloneKeeps(Steps(w, ListRows(options), env, 0, calls).0, Steps(w, ListRows(options), env, 0, calls).1);
          LiveMatchesLatestActive(Steps(w, ListRows(options), env, 0, calls).0, episodes[1..]);
        case RowsChanged(table) =>
          TableIrrelevant(w, table);
          LiveMatchesLatestActive(w.(table := table), episodes[1..]);
      }
    }
  }

  lemma StartsAlone(w: World, options: Options)
    requires LiveIsLatestActive(w)
    ensures Alone(w, ListRows(options))
  {
  }

  lemma AloneKeeps(w: World, pc: Pc)
    requires Alone(w, pc)
    ensures LiveIsLatestActive(w)
  {
  }

  lemma TableIrrelevant(w: World, table: Table)
    ensures LiveIsLatestActive(w) <==> LiveIsLatestActive(w.(table := table))
  {
  }

  // ---- Rollback ----

  // The rollback gets as far as loading the recorded text, whatever it reports afterwards.
  predicate Loads(w: World, n: int, env: Environment, k: nat) {
    && 1 <= n <= |w.log| && env(k).kind == env(k + 1).kind == env(k + 2).kind == Good
    && env(k + 3).kind in {Good, LostWithEffect}
  }

  lemma RestoreLoads(w: World, text: string, env: Environment, k: nat)
    ensures Finish(w, RestoreFile(text), env, k).0 ==
            if env(k).kind != Good then w
            else if env(k + 1).kind == Good && env(k + 2).kind in {Good, LostWithEffect} then
              w.(file := Some(text), live := Some(text))
            else w.(file := Some(text))
    ensures Finish(w, RestoreFile(text), env, k).1
            == if env(k).kind == env(k + 1).kind == env(k + 2).kind == env(k + 3).kind == Good then Restored
               else Errored
  {
    hide Finish, Prepare, AddressFrom, ProbeFrom, Probed, WithAddr;
    var w' := w.(file := Some(text));
    Unfold(w, RestoreFile(text), env, k);
    Unfold(w', RestoreCheck(text), env, k + 1);
    Unfold(w', RestoreApply(text), env, k + 2);
    Unfold(w'.(live := Some(text)), RestoreAnnounce, env, k + 3);
    forall world: World, outcome: Ending, j: nat
      ensures Finish(world, Finished(outcome), env, j) == (world, outcome, j)
    {
      Ended(world, outcome, env, j);
    }
  }

  // Whatever fails in a rollback, the log and the rows stay, and the live table changes exactly when
  // the rollback loads, to the text of that generation.
  lemma RollbackEffect(w: World, n: int, env: Environment, k: nat)
    ensures var end := Finish(w, FetchGeneration(n), env, k).0;
            && end == w.(file := end.file, live := end.live)
            && end.live == if Loads(w, n, env, k) then Some(w.log[n - 1].text) else w.live
  {
    hide Finish, Prepare, AddressFrom, ProbeFrom, Probed, WithAddr;
    Unfold(w, FetchGeneration(n), env, k);
    if env(k).kind == Good && 1 <= n <= |w.log| {
      RestoreLoads(w, w.log[n - 1].text, env, k + 1);
    } else {
      Ended(w, Errored, env, k + 1);
    }
  }

  // After any rollback, whatever fails in it, the latest active generation still describes the live
  // table exactly when nothing was loaded, or the log makes no claim, or that text was loaded.
  lemma RollbackLeavesLatestActive(w: World, n: int, env: Environment, k: nat)
    requires LiveIsLatestActive(w)
    ensures LiveIsLatestActive(Finish(w, FetchGeneration(n), env, k).0) <==>
            || !Loads(w, n, env, k)
            || ValidatedSince(w.log)
            || LatestActive(w.log) in {None, Some(w.log[n - 1].text)}
  {
    hide Finish, LatestActive, ValidatedSince;
    RollbackEffect(w, n, env, k);
  }

  // A rollback reports success exactly when the generation exists and every call is answered, and
  // then file and live table hold its text.
  lemma RollbackSucceedsExactly(w: World, n: int, env: Environment, k: nat)
    ensures Finish(w, FetchGeneration(n), env, k).1 == Restored <==>
            && 1 <= n <= |w.log| && env(k).kind == env(k + 1).kind == env(k + 2).kind == Good
            && env(k + 3).kind == env(k + 4).kind == Good
    ensures Finish(w, FetchGeneration(n), env, k).1 == Restored ==>
              var text := Some(w.log[n - 1].text);
              Finish(w, FetchGeneration(n), env, k).0 == w.(file := text, live := text)
  {
    hide Finish, Prepare, AddressFrom, ProbeFrom, Probed, WithAddr;
    Unfold(w, FetchGeneration(n), env, k);
    if env(k).kind == Good && 1 <= n <= |w.log| {
      RestoreLoads(w, w.log[n - 1].text, env, k + 1);
    } else {
      Ended(w, Errored, env, k + 1);
    }
  }
}
