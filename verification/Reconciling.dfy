// Reconcile and rollback as one machine. Each step makes one external call, and the
// environment answers it: the call may succeed, be refused, or be lost with or without effect.
module Reconciling {
  import opened Wrappers
  import opened Addresses
  import opened Mappings
  import opened Validation
  import opened Render
  import opened Tables
  import opened Xdp

  datatype GenerationStatus = Rendered | Validated | Activated | Failed

  // A row of the generation log; its id is its position, counted from one.
  datatype Generation = Generation(status: GenerationStatus, text: string)

  // `added` is a history variable: the present addresses that a reconcile put there.
  datatype World = World(
    config: EdgeConfig,
    table: Table,
    log: seq<Generation>,
    file: Option<string>,
    live: Option<string>,
    addrs: set<Addr>,
    added: set<Addr>)

  datatype Answer = Answer(kind: Kind, reachable: bool, now: Time)

  type Environment = nat -> Answer

  datatype Options = Options(dryRun: bool, applyNft: bool, applyLinux: bool, xdp: XdpConfig)

  datatype Job = Job(rows: seq<Mapping>, text: string, options: Options, rendered: nat)

  datatype Report = Report(text: string, generation: Option<nat>, added: seq<Addr>, removed: seq<Addr>, xdpEntries: nat)

  datatype Ending = Reported(report: Report) | Restored | Errored

  // Where a call stands: the external call it makes next.
  datatype Pc =
    | ListRows(options: Options)
    | RecordRendered(job: Job)
    | WriteFile(job: Job)
    | CheckFile(job: Job)
    | RecordFailure(job: Job)
    | RecordValidated(job: Job)
    | ApplyFile(job: Job)
    | ShowAddrs(job: Job, i: nat, ups: seq<Addr>, downs: seq<Addr>)
    | ChangeAddr(job: Job, i: nat, ups: seq<Addr>, downs: seq<Addr>)
    | RecordActive(job: Job, ups: seq<Addr>, downs: seq<Addr>)
    | Probe(job: Job, i: nat, report: Report)
    | Announce(report: Report)
    | FetchGeneration(generation: int)
    | RestoreFile(text: string)
    | RestoreCheck(text: string)
    | RestoreApply(text: string)
    | RestoreAnnounce
    | Finished(outcome: Ending)

  // ---- Moves that make no external call ----

  // The next nft row from `i` on, or what follows the address loop.
  function AddressFrom(job: Job, i: nat, ups: seq<Addr>, downs: seq<Addr>): Pc
    decreases |job.rows| - i
  {
    if i >= |job.rows| then AfterAddresses(job, ups, downs)
    else if job.rows[i].backend == Nft then ShowAddrs(job, i, ups, downs)
    else AddressFrom(job, i + 1, ups, downs)
  }

  function AfterAddresses(job: Job, ups: seq<Addr>, downs: seq<Addr>): Pc {
    if job.options.applyNft && job.options.applyLinux then RecordActive(job, ups, downs)
    else Announce(Report(job.text, Some(job.rendered), ups, downs, 0))
  }

  function AfterNft(job: Job): Pc {
    if job.options.applyLinux then AddressFrom(job, 0, [], []) else AfterAddresses(job, [], [])
  }

  predicate IsLive(m: Mapping) {
    m.enabled && m.backend == Nft
  }

  function ProbeFrom(job: Job, i: nat, report: Report): Pc
    decreases |job.rows| - i
  {
    if i >= |job.rows| then Announce(report)
    else if IsLive(job.rows[i]) then Probe(job, i, report)
    else ProbeFrom(job, i + 1, report)
  }

  // ---- Effects ----

  function Record(w: World, status: GenerationStatus, text: string): World {
    w.(log := w.log + [Generation(status, text)])
  }

  function WithAddr(w: World, m: Mapping): World {
    if m.enabled then w.(addrs := w.addrs + {m.edgeIp}, added := w.added + {m.edgeIp})
    else w.(addrs := w.addrs - {m.edgeIp}, added := w.added - {m.edgeIp})
  }

  function Probed(w: World, m: Mapping, a: Answer): World {
    var healthy := m.protocol == Udp || m.targetPort.None? || a.reachable;
    var status, health :=
      if healthy then Active else Degraded,
      if m.protocol == Udp then "udp_unchecked" else if m.targetPort.None? then "ok"
      else if a.reachable then "tcp_ok" else "degraded";
    var error := if healthy then None else Some("unreachable");
    w.(table := HealthStatement(w.table, m.id, status, Some(health), error, a.now))
  }

  // ---- One step ----

  // The first call of a reconcile lists the rows; rendering and planning follow without a call.
  ghost function Prepare(w: World, options: Options): Pc {
    var rows := Listing(w.table);
    if !Accepts(rows, w.config) then Finished(Errored)
    else
      match PlanOf(options.xdp, rows, w.config)
      case Failure(_) => Finished(Errored)
      case Success(plan) =>
        if options.dryRun then
          Finished(Reported(Report(RulesText(rows, w.config), None, [], [], |plan.entries|)))
        else if plan.entries != [] then Finished(Errored)
        else RecordRendered(Job(rows, RulesText(rows, w.config), options, 0))
  }

  function Next(good: bool, pc: Pc): Pc {
    if good then pc else Finished(Errored)
  }

  // Applying loads whatever the file holds at that moment.
  function ApplyStep(w: World, a: Answer, after: Pc, refused: Pc): (World, Pc) {
    if w.file.None? || a.kind == Refused then (w, refused)
    else match a.kind
      case Good => (w.(live := w.file), after)
      case LostWithEffect => (w.(live := w.file), Finished(Errored))
      case _ => (w, Finished(Errored))
  }

  function ShowStep(w: World, job: Job, i: nat, ups: seq<Addr>, downs: seq<Addr>, a: Answer): (World, Pc) {
    if a.kind != Good || i >= |job.rows| then (w, Finished(Errored))
    else if job.rows[i].enabled == (job.rows[i].edgeIp in w.addrs) then (w, AddressFrom(job, i + 1, ups, downs))
    else (w, ChangeAddr(job, i, ups, downs))
  }

  function ChangeStep(w: World, job: Job, i: nat, ups: seq<Addr>, downs: seq<Addr>, a: Answer): (World, Pc) {
    if i >= |job.rows| then (w, Finished(Errored))
    else
      var row := job.rows[i];
      match a.kind
      case Good =>
        (WithAddr(w, row),
         if row.enabled then AddressFrom(job, i + 1, ups + [row.edgeIp], downs)
         else AddressFrom(job, i + 1, ups, downs + [row.edgeIp]))
      case LostWithEffect => (WithAddr(w, row), Finished(Errored))
      case _ => (w, Finished(Errored))
  }

  function ProbeStep(w: World, job: Job, i: nat, report: Report, a: Answer): (World, Pc) {
    if i >= |job.rows| then (w, Finished(Errored))
    else match a.kind
      case Good =>
        if job.rows[i].id in w.table then (Probed(w, job.rows[i], a), ProbeFrom(job, i + 1, report))
        else (w, Finished(Errored))
      case LostWithEffect => (Probed(w, job.rows[i], a), Finished(Errored))
      case _ => (w, Finished(Errored))
  }

  ghost function Step(w: World, pc: Pc, a: Answer): (World, Pc) {
    var good := a.kind == Good;
    match pc
    case ListRows(options) => (w, if good then Prepare(w, options) else Finished(Errored))
    case RecordRendered(job) =>
      if good then (Record(w, Rendered, job.text), WriteFile(job.(rendered := |w.log| + 1))) else (w, Finished(Errored))
    case WriteFile(job) => if good then (w.(file := Some(job.text)), CheckFile(job)) else (w, RecordFailure(job))
    case CheckFile(job) =>
      (w, if good then RecordValidated(job) else if a.kind == Refused then RecordFailure(job) else Finished(Errored))
    case RecordFailure(job) => (if good then Record(w, Failed, job.text) else w, Finished(Errored))
    case RecordValidated(job) =>
      if good then (Record(w, Validated, job.text), if job.options.applyNft then ApplyFile(job) else AfterNft(job))
      else (w, Finished(Errored))
    case ApplyFile(job) => ApplyStep(w, a, AfterNft(job), RecordFailure(job))
    case ShowAddrs(job, i, ups, downs) => ShowStep(w, job, i, ups, downs, a)
    case ChangeAddr(job, i, ups, downs) => ChangeStep(w, job, i, ups, downs, a)
    case RecordActive(job, ups, downs) =>
      if good then
        (Record(w, Activated, job.text), ProbeFrom(job, 0, Report(job.text, Some(|w.log| + 1), ups, downs, 0)))
      else (w, Finished(Errored))
    case Probe(job, i, report) => ProbeStep(w, job, i, report, a)
    case Announce(report) => (w, Next(good, Finished(Reported(report))))
    case FetchGeneration(n) =>
      (w, if good && 1 <= n <= |w.log| then RestoreFile(w.log[n - 1].text) else Finished(Errored))
    case RestoreFile(text) => if good then (w.(file := Some(text)), RestoreCheck(text)) else (w, Finished(Errored))
    case RestoreCheck(text) => (w, Next(good, RestoreApply(text)))
    case RestoreApply(_) => ApplyStep(w, a, RestoreAnnounce, Finished(Errored))
    case RestoreAnnounce => (w, Next(good, Finished(Restored)))
    case Finished(_) => (w, pc)
  }

  // ---- Whole runs ----

  // How far a call still is from its end.
  function Phase(pc: Pc): nat {
    match pc
    case ListRows(_) => 12
    case RecordRendered(_) => 11
    case WriteFile(_) => 10
    case CheckFile(_) => 9
    case RecordValidated(_) => 8
    case ApplyFile(_) => 7
    case ShowAddrs(_, _, _, _) => 6
    case ChangeAddr(_, _, _, _) => 6
    case RecordActive(_, _, _) => 5
    case Probe(_, _, _) => 4
    case FetchGeneration(_) => 5
    case RestoreFile(_) => 4
    case RestoreCheck(_) => 3
    case RestoreApply(_) => 2
    case Announce(_) => 1
    case RecordFailure(_) => 1
    case RestoreAnnounce => 1
    case Finished(_) => 0
  }

  function Left(pc: Pc): int {
    match pc
    case ShowAddrs(job, i, _, _) => 2 * (|job.rows| - i) + 2
    case ChangeAddr(job, i, _, _) => 2 * (|job.rows| - i) + 1
    case Probe(job, i, _) => |job.rows| - i + 1
    case _ => 0
  }

  lemma {:induction false} AddressFromProgress(job: Job, i: nat, ups: seq<Addr>, downs: seq<Addr>)
    ensures var pc := AddressFrom(job, i, ups, downs);
            Phase(pc) < 6 || (Phase(pc) == 6 && 0 <= Left(pc) <= 2 * (|job.rows| - i) + 2)
    decreases |job.rows| - i
  {
    if i < |job.rows| && job.rows[i].backend != Nft {
      AddressFromProgress(job, i + 1, ups, downs);
    }
  }

  lemma {:induction false} ProbeFromProgress(job: Job, i: nat, report: Report)
    ensures var pc := ProbeFrom(job, i, report);
            Phase(pc) < 4 || (Phase(pc) == 4 && 0 <= Left(pc) <= |job.rows| - i + 1)
    decreases |job.rows| - i
  {
    if i < |job.rows| && !IsLive(job.rows[i]) {
      ProbeFromProgress(job, i + 1, report);
    }
  }

  ghost predicate Closer(pc: Pc, pc': Pc) {
    Phase(pc') < Phase(pc) || (Phase(pc') == Phase(pc) && 0 <= Left(pc') < Left(pc))
  }

  predicate InLoop(pc: Pc) {
    pc.ShowAddrs? || pc.ChangeAddr? || pc.Probe?
  }

  lemma LoopProgress(w: World, pc: Pc, a: Answer)
    requires InLoop(pc)
    ensures Closer(pc, Step(w, pc, a).1)
  {
    hide AddressFrom, ProbeFrom, Prepare, Probed, WithAddr;
    match pc
    case ShowAddrs(job, i, ups, downs) => AddressFromProgress(job, i + 1, ups, downs);
    case ChangeAddr(job, i, ups, downs) =>
      if i < |job.rows| {
        AddressFromProgress(job, i + 1, ups + [job.rows[i].edgeIp], downs);
        AddressFromProgress(job, i + 1, ups, downs + [job.rows[i].edgeIp]);
      }
    case Probe(job, i, report) => ProbeFromProgress(job, i + 1, report);
  }

  // Every answer brings a call closer to its end.
  lemma StepProgress(w: World, pc: Pc, a: Answer)
    requires !pc.Finished?
    ensures Closer(pc, Step(w, pc, a).1)
  {
    hide AddressFrom, ProbeFrom, Prepare, ShowStep, ChangeStep, ProbeStep;
    match pc
    case ListRows(options) => PrepareStarts(w, options);
    case RecordValidated(job) => AddressFromProgress(job, 0, [], []);
    case ApplyFile(job) => AddressFromProgress(job, 0, [], []);
    case RecordActive(job, ups, downs) => ProbeFromProgress(job, 0, Report(job.text, Some(|w.log| + 1), ups, downs, 0));
    case _ =>
      if InLoop(pc) {
        LoopProgress(w, pc, a);
      }
  }

  lemma PrepareStarts(w: World, options: Options)
    ensures Prepare(w, options).Finished? || Prepare(w, options).RecordRendered?
  {
  }

  // A call run to its end without interference, its answers taken from `k` on: the world, how the
  // call ended, and the position of the next unused answer.
  ghost function Finish(w: World, pc: Pc, env: Environment, k: nat): (World, Ending, nat)
    decreases Phase(pc), Left(pc)
  {
    if pc.Finished? then (w, pc.outcome, k)
    else
      StepProgress(w, pc, env(k));
      var (w', pc') := Step(w, pc, env(k));
      Finish(w', pc', env, k + 1)
  }

  lemma Unfold(w: World, pc: Pc, env: Environment, k: nat)
    requires !pc.Finished?
    ensures Finish(w, pc, env, k) == Finish(Step(w, pc, env(k)).0, Step(w, pc, env(k)).1, env, k + 1)
  {
  }

  lemma Ended(w: World, outcome: Ending, env: Environment, k: nat)
    ensures Finish(w, Finished(outcome), env, k) == (w, outcome, k)
  {
  }

  // The first `n` steps of a call: where it stands if it is cut off there.
  ghost function Steps(w: World, pc: Pc, env: Environment, k: nat, n: nat): (World, Pc)
    decreases n
  {
    if n == 0 then (w, pc)
    else
      var (w', pc') := Step(w, pc, env(k));
      Steps(w', pc', env, k + 1, n - 1)
  }

  // A finished call is one of its cut-off runs.
  lemma {:induction false} FinishIsSteps(w: World, pc: Pc, env: Environment, k: nat)
    ensures var (end, outcome, k') := Finish(w, pc, env, k);
            k <= k' && Steps(w, pc, env, k, k' - k) == (end, Finished(outcome))
    decreases Phase(pc), Left(pc)
  {
    hide Step;
    if !pc.Finished? {
      StepProgress(w, pc, env(k));
      var (w', pc') := Step(w, pc, env(k));
      FinishIsSteps(w', pc', env, k + 1);
    }
  }
}
