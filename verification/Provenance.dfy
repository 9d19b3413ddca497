// Many reconciles and rollbacks at once over one host and one output file.
module Provenance {
  import opened Wrappers
  import opened Addresses
  import opened Mappings
  import opened Tables
  import opened Reconciling

  // `own` is a history variable: the positions in the log of the rows each call has recorded.
  datatype Fleet = Fleet(world: World, calls: map<nat, Pc>, own: map<nat, seq<nat>>)

  // A call starts, a running call receives its next answer, or another client changes the rows.
  datatype Move =
    | StartReconcile(c: nat, options: Options)
    | StartRollback(c: nat, generation: int)
    | Call(c: nat, answer: Answer)
    | ChangeRows(table: Table)

  ghost function After(f: Fleet, m: Move): Fleet {
    match m
    case StartReconcile(c, options) =>
      if c in f.calls then f else f.(calls := f.calls[c := ListRows(options)], own := f.own[c := []])
    case StartRollback(c, generation) =>
      if c in f.calls then f else f.(calls := f.calls[c := FetchGeneration(generation)], own := f.own[c := []])
    case Call(c, answer) =>
      if c !in f.calls || c !in f.own then f
      else
        var (w, pc) := Step(f.world, f.calls[c], answer);
        Fleet(w, f.calls[c := pc], f.own[c := OwnAfter(f.own[c], f.world.log, w.log)])
    case ChangeRows(table) => f.(world := f.world.(table := table))
  }

  ghost function AfterAll(f: Fleet, moves: seq<Move>): Fleet
    decreases |moves|
  {
    if moves == [] then f else AfterAll(After(f, moves[0]), moves[1..])
  }

  function OwnAfter(own: seq<nat>, before: seq<Generation>, after: seq<Generation>): seq<nat> {
    if |after| > |before| then own + [|before|] else own
  }

  // ---- What every schedule keeps ----

  ghost predicate Recorded(log: seq<Generation>, text: string) {
    exists i :: 0 <= i < |log| && log[i].text == text
  }

  ghost predicate FromLog(log: seq<Generation>, contents: Option<string>) {
    contents.Some? ==> Recorded(log, contents.value)
  }

  ghost predicate InLog(own: seq<nat>, log: seq<Generation>) {
    forall k :: 0 <= k < |own| ==> own[k] < |log|
  }

  ghost function Statuses(log: seq<Generation>, own: seq<nat>): seq<GenerationStatus>
    requires InLog(own, log)
  {
    seq(|own|, k requires 0 <= k < |own| => log[own[k]].status)
  }

  // The log rows of a call read Rendered, Failed, or Rendered, Validated and then Failed or Activated.
  predicate Story(s: seq<GenerationStatus>) {
    s <= [Rendered, Failed] || s <= [Rendered, Validated, Failed] || s <= [Rendered, Validated, Activated]
  }

  // The rows a call has recorded when it stands at `pc`.
  predicate StoryAt(pc: Pc, s: seq<GenerationStatus>) {
    match pc
    case WriteFile(_) => s == [Rendered]
    case CheckFile(_) => s == [Rendered]
    case RecordValidated(_) => s == [Rendered]
    case RecordFailure(_) => s == [Rendered] || s == [Rendered, Validated]
    case ApplyFile(_) => s == [Rendered, Validated]
    case ShowAddrs(_, _, _, _) => s == [Rendered, Validated]
    case ChangeAddr(_, _, _, _) => s == [Rendered, Validated]
    case RecordActive(_, _, _) => s == [Rendered, Validated]
    case Probe(_, _, _) => s == [Rendered, Validated, Activated]
    case Announce(_) => s == [Rendered, Validated] || s == [Rendered, Validated, Activated]
    case Finished(_) => Story(s)
    case _ => s == []
  }

  // The text a call works with, if it has one.
  function TextOf(pc: Pc): Option<string> {
    match pc
    case RecordRendered(job) => Some(job.text)
    case WriteFile(job) => Some(job.text)
    case CheckFile(job) => Some(job.text)
    case RecordFailure(job) => Some(job.text)
    case RecordValidated(job) => Some(job.text)
    case ApplyFile(job) => Some(job.text)
    case ShowAddrs(job, _, _, _) => Some(job.text)
    case ChangeAddr(job, _, _, _) => Some(job.text)
    case RecordActive(job, _, _) => Some(job.text)
    case RestoreFile(text) => Some(text)
    case _ => None
  }

  ghost predicate CallOk(log: seq<Generation>, pc: Pc, own: seq<nat>) {
    && InLog(own, log)
    && StoryAt(pc, Statuses(log, own))
    && (forall k :: 0 <= k < |own| ==> log[own[k]].text == log[own[0]].text)
    && (TextOf(pc).Some? && own != [] ==> log[own[0]].text == TextOf(pc).value)
    && (pc.RestoreFile? ==> Recorded(log, pc.text))
  }

  ghost predicate FleetOk(f: Fleet) {
    && FromLog(f.world.log, f.world.file)
    && FromLog(f.world.log, f.world.live)
    && f.calls.Keys == f.own.Keys
    && forall c :: c in f.calls ==> CallOk(f.world.log, f.calls[c], f.own[c])
  }

  // A step appends at most one row, and only the written file can become the live table.
  lemma StepEffects(w: World, pc: Pc, a: Answer)
    ensures var w' := Step(w, pc, a).0;
            && (w'.log == w.log || |w'.log| == |w.log| + 1) && w.log <= w'.log
            && (w'.live == w.live || w'.live == w.file)
            && (w'.file == w.file || (TextOf(pc).Some? && w'.file == TextOf(pc) && (pc.WriteFile? || pc.RestoreFile?)))
  {
  }

  lemma Append(log: seq<Generation>, own: seq<nat>, g: Generation)
    requires InLog(own, log)
    ensures InLog(own, log + [g]) && Statuses(log + [g], own) == Statuses(log, own)
    ensures InLog(own + [|log|], log + [g]) && Statuses(log + [g], own + [|log|]) == Statuses(log, own) + [g.status]
  {
  }

  lemma CallOkExtends(log: seq<Generation>, log': seq<Generation>, pc: Pc, own: seq<nat>)
    requires CallOk(log, pc, own) && log <= log'
    ensures CallOk(log', pc, own)
  {
  }

  lemma {:induction false} AddressFromKeeps(job: Job, i: nat, ups: seq<Addr>, downs: seq<Addr>)
    ensures var pc := AddressFrom(job, i, ups, downs);
            (pc.ShowAddrs? || pc.RecordActive? || pc.Announce?) && TextOf(pc) in {None, Some(job.text)}
    decreases |job.rows| - i
  {
    if i < |job.rows| && job.rows[i].backend != Nft {
      AddressFromKeeps(job, i + 1, ups, downs);
    }
  }

  lemma {:induction false} ProbeFromKeeps(job: Job, i: nat, report: Report)
    ensures ProbeFrom(job, i, report).Probe? || ProbeFrom(job, i, report).Announce?
    decreases |job.rows| - i
  {
    if i < |job.rows| && !IsLive(job.rows[i]) {
      ProbeFromKeeps(job, i + 1, report);
    }
  }

  ghost predicate SameTexts(log: seq<Generation>, own: seq<nat>, text: string)
    requires InLog(own, log)
  {
    forall k :: 0 <= k < |own| ==> log[own[k]].text == text
  }

  lemma RecordingStep(w: World, pc: Pc, own: seq<nat>, status: GenerationStatus, text: string, pc': Pc)
    requires InLog(own, w.log) && SameTexts(w.log, own, text)
    requires StoryAt(pc', Statuses(w.log, own) + [status])
    requires TextOf(pc') in {None, Some(text)} && !pc'.RestoreFile?
    ensures CallOk(Record(w, status, text).log, pc', own + [|w.log|])
  {
    Append(w.log, own, Generation(status, text));
  }

  predicate Records(pc: Pc) {
    pc.RecordRendered? || pc.RecordFailure? || pc.RecordValidated? || pc.RecordActive?
  }

  lemma RecordStepOk(w: World, pc: Pc, own: seq<nat>, a: Answer)
    requires CallOk(w.log, pc, own) && Records(pc) && a.kind == Good
    ensures var (w', pc') := Step(w, pc, a); CallOk(w'.log, pc', OwnAfter(own, w.log, w'.log))
  {
    hide Prepare, AddressFrom, ProbeFrom, Statuses;
    match pc
    case RecordRendered(job) =>
      RecordingStep(w, pc, own, Rendered, job.text, WriteFile(job.(rendered := |w.log| + 1)));
    case RecordFailure(job) =>
      RecordingStep(w, pc, own, Failed, job.text, Finished(Errored));
    case RecordValidated(job) =>
      AddressFromKeeps(job, 0, [], []);
      RecordingStep(w, pc, own, Validated, job.text, if job.options.applyNft then ApplyFile(job) else AfterNft(job));
    case RecordActive(job, ups, downs) =>
      var report := Report(job.text, Some(|w.log| + 1), ups, downs, 0);
      ProbeFromKeeps(job, 0, report);
      RecordingStep(w, pc, own, Activated, job.text, ProbeFrom(job, 0, report));
  }

  // Where a step that records nothing can lead.
  ghost predicate Follows(pc: Pc, pc': Pc) {
    && (pc' == pc || !pc'.RestoreFile?)
    && (TextOf(pc').None? || TextOf(pc') == TextOf(pc) || pc.ListRows?)
    && forall s :: StoryAt(pc, s) ==> StoryAt(pc', s)
  }

  lemma QuietStepLog(w: World, pc: Pc, a: Answer)
    requires !Records(pc) || a.kind != Good
    ensures Step(w, pc, a).0.log == w.log
  {
  }

  lemma AddressStepFollows(w: World, pc: Pc, a: Answer)
    requires pc.ShowAddrs? || pc.ChangeAddr?
    ensures Follows(pc, Step(w, pc, a).1)
  {
    hide Prepare, AddressFrom, ProbeFrom, Probed, WithAddr;
    match pc
    case ShowAddrs(job, i, ups, downs) =>
      AddressFromKeeps(job, i + 1, ups, downs);
    case ChangeAddr(job, i, ups, downs) =>
      if i < |job.rows| {
        AddressFromKeeps(job, i + 1, ups + [job.rows[i].edgeIp], downs);
        AddressFromKeeps(job, i + 1, ups, downs + [job.rows[i].edgeIp]);
      }
  }

  lemma QuietStepFollows(w: World, pc: Pc, a: Answer)
    requires (!Records(pc) || a.kind != Good) && !pc.FetchGeneration? && !pc.ShowAddrs? && !pc.ChangeAddr?
    ensures Follows(pc, Step(w, pc, a).1)
  {
    hide Prepare, AddressFrom, ProbeFrom, Probed, ShowStep, ChangeStep;
    match pc
    case ListRows(options) =>
      PrepareStarts(w, options);
    case ApplyFile(job) =>
      AddressFromKeeps(job, 0, [], []);
    case Probe(job, i, report) =>
      ProbeFromKeeps(job, i + 1, report);
    case _ =>
  }

  lemma CallStepOk(w: World, pc: Pc, own: seq<nat>, a: Answer)
    requires CallOk(w.log, pc, own)
    ensures var (w', pc') := Step(w, pc, a); CallOk(w'.log, pc', OwnAfter(own, w.log, w'.log))
  {
    if Records(pc) && a.kind == Good {
      hide *;
      RecordStepOk(w, pc, own, a);
    } else if pc.FetchGeneration? {
      assert OwnAfter(own, w.log, w.log) == own == [];
    } else {
      hide Step;
      QuietStepLog(w, pc, a);
      if pc.ShowAddrs? || pc.ChangeAddr? {
        AddressStepFollows(w, pc, a);
      } else {
        QuietStepFollows(w, pc, a);
      }
      assert pc.ListRows? ==> |Statuses(w.log, own)| == 0;
    }
  }

  lemma MoveKeepsOk(f: Fleet, m: Move)
    requires FleetOk(f)
    ensures FleetOk(After(f, m))
    ensures f.world.log <= After(f, m).world.log
  {
    hide Step;
    match m
    case Call(c, answer) =>
      if c in f.calls {
        CallMoveOk(f, c, answer);
      }
    case _ =>
  }

  lemma CallMoveOk(f: Fleet, c: nat, a: Answer)
    requires FleetOk(f) && c in f.calls
    ensures FleetOk(After(f, Call(c, a))) && f.world.log <= After(f, Call(c, a)).world.log
  {
    hide Step, CallOk;
    var w, pc, own := f.world, f.calls[c], f.own[c];
    var w' := Step(w, pc, a).0;
    StepEffects(w, pc, a);
    CallStepOk(w, pc, own, a);
    forall d | d in f.calls && d != c
      ensures CallOk(w'.log, f.calls[d], f.own[d])
    {
      CallOkExtends(w.log, w'.log, f.calls[d], f.own[d]);
    }
    FileTextRecorded(w.log, pc, own);
    StillRecorded(w.log, w'.log, w.file);
    StillRecorded(w.log, w'.log, w.live);
    StillRecorded(w.log, w'.log, TextOf(pc));
  }

  // A call writes to the file only a text that the log already holds.
  lemma FileTextRecorded(log: seq<Generation>, pc: Pc, own: seq<nat>)
    requires CallOk(log, pc, own)
    ensures pc.WriteFile? || pc.RestoreFile? ==> FromLog(log, TextOf(pc))
  {
  }

  lemma StillRecorded(log: seq<Generation>, log': seq<Generation>, contents: Option<string>)
    requires log <= log'
    ensures FromLog(log, contents) ==> FromLog(log', contents)
  {
  }

  lemma {:induction false} EveryScheduleOk(f: Fleet, moves: seq<Move>)
    requires FleetOk(f)
    ensures FleetOk(AfterAll(f, moves)) && f.world.log <= AfterAll(f, moves).world.log
    decreases |moves|
  {
    hide After, FleetOk;
    if moves != [] {
      MoveKeepsOk(f, moves[0]);
      EveryScheduleOk(After(f, moves[0]), moves[1..]);
    }
  }

  // However reconciles and rollbacks interleave and fail, the file and the live table always hold
  // the text of a recorded generation.
  lemma ContentsComeFromTheLog(w: World, moves: seq<Move>)
    requires w.log == [] && w.file == w.live == None
    ensures var end := AfterAll(Fleet(w, map[], map[]), moves).world;
            FromLog(end.log, end.file) && FromLog(end.log, end.live)
  {
    EveryScheduleOk(Fleet(w, map[], map[]), moves);
  }

  // The rows a call has recorded carry one text and tell one of the three stories so far.
  lemma EveryCallTellsAStory(w: World, moves: seq<Move>, c: nat)
    requires w.log == [] && w.file == w.live == None
    requires c in AfterAll(Fleet(w, map[], map[]), moves).own
    ensures var f := AfterAll(Fleet(w, map[], map[]), moves);
            && InLog(f.own[c], f.world.log)
            && Story(Statuses(f.world.log, f.own[c]))
            && forall k :: 0 <= k < |f.own[c]| ==> f.world.log[f.own[c][k]].text == f.world.log[f.own[c][0]].text
  {
    hide AfterAll, Statuses;
    EveryScheduleOk(Fleet(w, map[], map[]), moves);
  }
}
