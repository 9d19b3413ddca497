// The agent's calls in serial order: create, enable, disable, reconcile and delete, where any
// external call may fail and any call may be cut off. Nothing they leave behind is orphaned.
module Agent {
  import opened Wrappers
  import opened Addresses
  import opened Mappings
  import opened Validation
  import opened Ruleset
  import opened Render
  import opened NftFiles
  import opened ReadBack
  import opened Tables
  import opened Xdp
  import opened Reconciling
  import Oci

  const DELETE_OPTIONS := Options(false, true, true, XdpConfig(false, "", "/sys/fs/bpf/edgeroute", Skb))

  // Where a delete stands: it switches the row off, reconciles, and only then removes the row.
  datatype DeletePc =
    | SwitchOff(id: string)
    | ConfirmOff(id: string)
    | Pushing(id: string, call: Pc)
    | FetchDoomed(id: string)
    | RemoveDoomed(id: string, row: Mapping)
    | Done(deleted: Option<Mapping>)

  ghost function DeleteStep(w: World, pc: DeletePc, a: Answer): (World, DeletePc) {
    var good := a.kind == Good;
    match pc
    case SwitchOff(id) =>
      if !good then (w, Done(None))
      else
        (match EnableStatement(w.table, id, false, a.now)
         case None => (w, Done(None))
         case Some(t) => (w.(table := t), ConfirmOff(id)))
    case ConfirmOff(id) =>
      (w, if good && id in w.table then Pushing(id, ListRows(DELETE_OPTIONS)) else Done(None))
    case Pushing(id, call) =>
      var (w', call') := Step(w, call, a);
      (w', if !call'.Finished? then Pushing(id, call')
           else if call'.outcome.Reported? then FetchDoomed(id) else Done(None))
    case FetchDoomed(id) => (w, if good && id in w.table then RemoveDoomed(id, w.table[id]) else Done(None))
    case RemoveDoomed(id, row) =>
      if good then (w.(table := DeleteStatement(w.table, id)), Done(Some(row))) else (w, Done(None))
    case Done(_) => (w, pc)
  }

  ghost function DeleteSteps(w: World, pc: DeletePc, env: Environment, k: nat, n: nat): (World, DeletePc)
    decreases n
  {
    if n == 0 then (w, pc)
    else
      var (w', pc') := DeleteStep(w, pc, env(k));
      DeleteSteps(w', pc', env, k + 1, n - 1)
  }

  // ---- No orphans ----

  // The row without its switch and what follows from it, and without its cloud address.
  function Route(m: Mapping): Mapping {
    Quiet(m).(enabled := true, publicIp := None, ociPublicIp := None, ociPrivateIp := None)
  }

  ghost predicate NamedIn(t: Table, a: Addr) {
    exists id :: id in t && t[id].backend == Nft && t[id].edgeIp == a
  }

  // Every row that stands behind the live table is stored with the same route, apart from `except`.
  ghost predicate LiveBacked(w: World, rows: seq<Mapping>, except: Option<string>) {
    && w.live == Some(RulesText(rows, w.config))
    && forall m :: m in rows && IsLive(m) ==>
         m.id in w.table && Route(m) == Route(w.table[m.id]) && Some(m.id) != except
  }

  // Nothing is left behind: the live table stands for stored rows only, and every address that a
  // reconcile added is named by a stored nft row.
  ghost predicate OrphanFree(w: World) {
    && Keyed(w.table)
    && (w.live.Some? ==> exists rows :: LiveBacked(w, rows, None))
    && w.added <= w.addrs
    && forall a :: a in w.added ==> NamedIn(w.table, a)
  }

  // The rows a reconcile has listed are still the stored rows, up to health.
  ghost predicate Current(rows: seq<Mapping>, t: Table) {
    && (forall m :: m in rows ==> m.id in t && Quiet(m) == Quiet(t[m.id]))
    && (forall id :: id in t ==> exists m :: m in rows && m.id == id)
  }

  ghost predicate JobOk(w: World, job: Job) {
    Current(job.rows, w.table) && job.text == RulesText(job.rows, w.config)
  }

  // What a lone reconcile keeps at each point of its run.
  ghost predicate Tidy(w: World, pc: Pc) {
    && OrphanFree(w)
    && match pc
       case ListRows(_) => true
       case RecordRendered(job) => JobOk(w, job)
       case WriteFile(job) => JobOk(w, job)
       case CheckFile(job) => JobOk(w, job) && w.file == Some(job.text)
       case RecordFailure(job) => true
       case RecordValidated(job) => JobOk(w, job) && w.file == Some(job.text)
       case ApplyFile(job) => JobOk(w, job) && w.file == Some(job.text)
       case ShowAddrs(job, i, _, _) => JobOk(w, job) && (i < |job.rows| ==> job.rows[i].backend == Nft)
       case ChangeAddr(job, i, _, _) => JobOk(w, job) && (i < |job.rows| ==> job.rows[i].backend == Nft)
       case RecordActive(job, _, _) => JobOk(w, job)
       case Probe(job, _, _) => JobOk(w, job)
       case Announce(_) => true
       case Finished(_) => true
       case _ => false
  }

  // No row is lost and no row changes its route.
  ghost predicate RoutesKept(t: Table, u: Table) {
    t.Keys <= u.Keys && forall id :: id in t ==> Route(t[id]) == Route(u[id])
  }

  lemma RoutesKeepOrphanFree(w: World, t: Table)
    requires OrphanFree(w) && RoutesKept(w.table, t) && Keyed(t)
    ensures OrphanFree(w.(table := t))
  {
    var w' := w.(table := t);
    if w.live.Some? {
      var rows :| LiveBacked(w, rows, None);
      assert LiveBacked(w', rows, None);
    }
    forall a | a in w.added
      ensures NamedIn(t, a)
    {
      var id :| id in w.table && w.table[id].backend == Nft && w.table[id].edgeIp == a;
      SameRoute(w.table[id], t[id]);
    }
  }

  lemma SameRoute(m: Mapping, n: Mapping)
    requires Route(m) == Route(n)
    ensures m.backend == n.backend && m.edgeIp == n.edgeIp && m.targetIp == n.targetIp && m.mode == n.mode
    ensures m.protocol == n.protocol && m.publicPort == n.publicPort && m.targetPort == n.targetPort
  {
  }

  lemma CalmKeepsTidy(w: World, t: Table)
    requires OrphanFree(w) && Calm(w.table, t) && Keyed(t)
    ensures OrphanFree(w.(table := t))
    ensures forall rows :: Current(rows, w.table) ==> Current(rows, t)
  {
    assert forall id :: id in t ==> Quiet(t[id]) == Quiet(w.table[id]);
    RoutesKeepOrphanFree(w, t);
  }

  // Loading the text of current rows leaves no orphan behind the live table.
  lemma ApplyIsBacked(w: World, job: Job)
    requires OrphanFree(w) && JobOk(w, job)
    ensures OrphanFree(w.(live := Some(job.text)))
  {
    var w' := w.(live := Some(job.text));
    assert LiveBacked(w', job.rows, None);
  }

  lemma ChangeIsNamed(w: World, job: Job, m: Mapping)
    requires OrphanFree(w) && JobOk(w, job) && m in job.rows && m.backend == Nft
    ensures OrphanFree(WithAddr(w, m)) && JobOk(WithAddr(w, m), job)
  {
    var w' := WithAddr(w, m);
    SameRoute(m, w.table[m.id]);
    assert NamedIn(w.table, m.edgeIp);
    if w.live.Some? {
      var rows :| LiveBacked(w, rows, None);
      assert LiveBacked(w', rows, None);
    }
  }

  lemma SameBacking(w: World, w': World)
    requires OrphanFree(w)
    requires w'.table == w.table && w'.live == w.live && w'.config == w.config
    requires w'.addrs == w.addrs && w'.added == w.added
    ensures OrphanFree(w')
  {
    if w.live.Some? {
      var rows :| LiveBacked(w, rows, None);
      assert LiveBacked(w', rows, None);
    }
  }

  lemma {:induction false} TidyFromAddress(w: World, job: Job, i: nat, ups: seq<Addr>, downs: seq<Addr>)
    requires OrphanFree(w) && JobOk(w, job)
    ensures Tidy(w, AddressFrom(job, i, ups, downs))
    decreases |job.rows| - i
  {
    if i < |job.rows| && job.rows[i].backend != Nft {
      TidyFromAddress(w, job, i + 1, ups, downs);
    }
  }

  lemma {:induction false} TidyFromProbe(w: World, job: Job, i: nat, report: Report)
    requires OrphanFree(w) && JobOk(w, job)
    ensures Tidy(w, ProbeFrom(job, i, report))
    decreases |job.rows| - i
  {
    if i < |job.rows| && !IsLive(job.rows[i]) {
      TidyFromProbe(w, job, i + 1, report);
    }
  }

  lemma PrepareIsTidy(w: World, options: Options)
    requires OrphanFree(w)
    ensures Tidy(w, Prepare(w, options))
  {
    hide OrphanFree, RulesText, Accepts, PlanOf;
    assert Keyed(w.table) by {
      OrphanFreeKeyed(w);
    }
    ListingIsListing(w.table);
    forall id | id in w.table
      ensures exists m :: m in Listing(w.table) && m.id == id
    {
      assert w.table[id] in Listing(w.table);
    }
  }

  lemma OrphanFreeKeyed(w: World)
    requires OrphanFree(w)
    ensures Keyed(w.table)
  {
  }

  lemma ProbedIsTidy(w: World, m: Mapping, a: Answer)
    requires OrphanFree(w)
    ensures OrphanFree(Probed(w, m, a)) && Calm(w.table, Probed(w, m, a).table)
    ensures forall rows :: Current(rows, w.table) ==> Current(rows, Probed(w, m, a).table)
    ensures Probed(w, m, a) == w.(table := Probed(w, m, a).table)
  {
    hide OrphanFree, Current;
    OrphanFreeKeyed(w);
    CalmKeepsTidy(w, Probed(w, m, a).table);
  }

  lemma LoopStepIsTidy(w: World, pc: Pc, a: Answer)
    requires Tidy(w, pc) && InLoop(pc)
    ensures Tidy(Step(w, pc, a).0, Step(w, pc, a).1)
  {
    hide OrphanFree, Prepare, AddressFrom, ProbeFrom, Current, Probed, WithAddr, RulesText;
    match pc
    case ShowAddrs(job, i, ups, downs) =>
      TidyFromAddress(w, job, i + 1, ups, downs);
    case ChangeAddr(job, i, ups, downs) =>
      if i < |job.rows| {
        ChangeIsNamed(w, job, job.rows[i]);
        TidyFromAddress(WithAddr(w, job.rows[i]), job, i + 1, ups + [job.rows[i].edgeIp], downs);
        TidyFromAddress(WithAddr(w, job.rows[i]), job, i + 1, ups, downs + [job.rows[i].edgeIp]);
      }
    case Probe(job, i, report) =>
      if i < |job.rows| {
        ProbedIsTidy(w, job.rows[i], a);
        TidyFromProbe(Probed(w, job.rows[i], a), job, i + 1, report);
      }
  }

  lemma StepIsTidy(w: World, pc: Pc, a: Answer)
    requires Tidy(w, pc)
    ensures Tidy(Step(w, pc, a).0, Step(w, pc, a).1)
  {
    hide OrphanFree, Prepare, AddressFrom, ProbeFrom, Current, RulesText, ShowStep, ChangeStep, ProbeStep;
    match pc
    case ListRows(options) =>
      PrepareIsTidy(w, options);
    case RecordRendered(job) =>
      SameBacking(w, Record(w, Rendered, job.text));
    case WriteFile(job) =>
      SameBacking(w, w.(file := Some(job.text)));
    case RecordFailure(job) =>
      SameBacking(w, Record(w, Failed, job.text));
    case RecordValidated(job) =>
      SameBacking(w, Record(w, Validated, job.text));
      TidyFromAddress(Record(w, Validated, job.text), job, 0, [], []);
    case ApplyFile(job) =>
      ApplyIsBacked(w, job);
      TidyFromAddress(w.(live := Some(job.text)), job, 0, [], []);
    case RecordActive(job, ups, downs) =>
      SameBacking(w, Record(w, Activated, job.text));
      TidyFromProbe(Record(w, Activated, job.text), job, 0, Report(job.text, Some(|w.log| + 1), ups, downs, 0));
    case _ =>
      if InLoop(pc) {
        LoopStepIsTidy(w, pc, a);
      }
  }

  // ---- A delete lets go of its row before removing it ----

  ghost predicate NamedByOther(t: Table, id: string, a: Addr) {
    exists other :: other in t && other != id && t[other].backend == Nft && t[other].edgeIp == a
  }

  // The live table does not stand for the row.
  ghost predicate LiveGone(w: World, id: string) {
    exists rows :: LiveBacked(w, rows, Some(id))
  }

  // Every added address is named by another row, or by the row itself among those still to come.
  ghost predicate AddedGone(w: World, id: string, rows: seq<Mapping>, i: nat) {
    forall a :: a in w.added ==>
      NamedByOther(w.table, id, a)
      || exists j :: i <= j < |rows| && rows[j].id == id && rows[j].backend == Nft && rows[j].edgeIp == a
  }

  ghost predicate Gone(w: World, id: string) {
    LiveGone(w, id) && AddedGone(w, id, [], 0)
  }

  ghost predicate Off(w: World, id: string) {
    id in w.table && !w.table[id].enabled
  }

  // What the reconcile inside a delete of `id` keeps.
  ghost predicate Detaching(w: World, pc: Pc, id: string) {
    && Off(w, id)
    && match pc
       case ListRows(options) => options == DELETE_OPTIONS
       case RecordRendered(job) => job.options == DELETE_OPTIONS
       case WriteFile(job) => job.options == DELETE_OPTIONS
       case CheckFile(job) => job.options == DELETE_OPTIONS
       case RecordValidated(job) => job.options == DELETE_OPTIONS
       case ApplyFile(job) => job.options == DELETE_OPTIONS
       case ShowAddrs(job, i, _, _) => LiveGone(w, id) && AddedGone(w, id, job.rows, i)
       case ChangeAddr(job, i, _, _) => LiveGone(w, id) && AddedGone(w, id, job.rows, i)
       case RecordActive(_, _, _) => Gone(w, id)
       case Probe(_, _, _) => Gone(w, id)
       case Announce(_) => Gone(w, id)
       case Finished(outcome) => outcome.Reported? ==> Gone(w, id)
       case _ => true
  }

  lemma {:induction false} DetachingFromAddress(
    w: World, job: Job, i: nat, ups: seq<Addr>, downs: seq<Addr>, id: string)
    requires Off(w, id) && LiveGone(w, id) && AddedGone(w, id, job.rows, i)
    ensures Detaching(w, AddressFrom(job, i, ups, downs), id)
    decreases |job.rows| - i
  {
    hide LiveGone;
    if i < |job.rows| && job.rows[i].backend != Nft {
      DetachingFromAddress(w, job, i + 1, ups, downs, id);
    }
  }

  lemma {:induction false} DetachingFromProbe(w: World, job: Job, i: nat, report: Report, id: string)
    requires Off(w, id) && Gone(w, id)
    ensures Detaching(w, ProbeFrom(job, i, report), id)
    decreases |job.rows| - i
  {
    hide Gone;
    if i < |job.rows| && !IsLive(job.rows[i]) {
      DetachingFromProbe(w, job, i + 1, report, id);
    }
  }

  lemma AppliedJobBacks(w: World, job: Job, id: string)
    requires OrphanFree(w) && JobOk(w, job) && Off(w, id)
    ensures LiveBacked(w.(live := Some(job.text)), job.rows, Some(id))
  {
  }

  lemma ApplyLetsGo(w: World, job: Job, id: string)
    requires OrphanFree(w) && JobOk(w, job) && Off(w, id)
    ensures var w' := w.(live := Some(job.text)); LiveGone(w', id) && AddedGone(w', id, job.rows, 0)
  {
    hide LiveBacked, Quiet, RulesText;
    AppliedJobBacks(w, job, id);
    forall a | a in w.added
      ensures NamedByOther(w.table, id, a)
              || exists j :: 0 <= j < |job.rows| && job.rows[j].id == id && job.rows[j].backend == Nft
                             && job.rows[j].edgeIp == a
    {
      var other :| other in w.table && w.table[other].backend == Nft && w.table[other].edgeIp == a;
      if other == id {
        var m :| m in job.rows && m.id == id;
        SameRoute(m, w.table[id]);
        var j :| 0 <= j < |job.rows| && job.rows[j] == m;
      }
    }
  }

  // Passing a row that needs no change.
  lemma ShowLetsGo(w: World, job: Job, i: nat, id: string)
    requires OrphanFree(w) && JobOk(w, job) && Off(w, id) && i < |job.rows| && AddedGone(w, id, job.rows, i)
    requires job.rows[i].enabled <==> job.rows[i].edgeIp in w.addrs
    ensures AddedGone(w, id, job.rows, i + 1)
  {
  }

  // Adding the address of an enabled row, or removing that of a disabled one.
  lemma ChangeLetsGo(w: World, job: Job, i: nat, id: string)
    requires JobOk(w, job) && Off(w, id) && i < |job.rows| && job.rows[i].backend == Nft
    requires LiveGone(w, id) && AddedGone(w, id, job.rows, i)
    ensures var w' := WithAddr(w, job.rows[i]); LiveGone(w', id) && AddedGone(w', id, job.rows, i + 1)
  {
    AddressChangeKeepsLive(w, job.rows[i], id);
    AddressChangeLetsGo(w, job.rows, i, id);
  }

  lemma AddressChangeKeepsLive(w: World, m: Mapping, id: string)
    requires LiveGone(w, id)
    ensures LiveGone(WithAddr(w, m), id)
  {
    var rows :| LiveBacked(w, rows, Some(id));
    assert LiveBacked(WithAddr(w, m), rows, Some(id));
  }

  lemma AddressChangeLetsGo(w: World, rows: seq<Mapping>, i: nat, id: string)
    requires Current(rows, w.table) && Off(w, id) && i < |rows| && rows[i].backend == Nft
    requires AddedGone(w, id, rows, i)
    ensures AddedGone(WithAddr(w, rows[i]), id, rows, i + 1)
  {
  }

  lemma CalmLetsGo(w: World, t: Table, id: string)
    requires Gone(w, id) && Off(w, id) && Calm(w.table, t)
    ensures Gone(w.(table := t), id) && Off(w.(table := t), id)
  {
    var w' := w.(table := t);
    forall other | other in t
      ensures Route(t[other]) == Route(w.table[other]) && t[other].enabled == w.table[other].enabled
      ensures t[other].backend == w.table[other].backend && t[other].edgeIp == w.table[other].edgeIp
    {
      assert Quiet(t[other]) == Quiet(w.table[other]);
      assert t[other].enabled == Quiet(t[other]).enabled && w.table[other].enabled == Quiet(w.table[other]).enabled;
      SameRoute(t[other], w.table[other]);
    }
    var rows :| LiveBacked(w, rows, Some(id));
    assert LiveBacked(w', rows, Some(id));
    forall a | a in w.added
      ensures NamedByOther(t, id, a)
    {
      assert NamedByOther(w.table, id, a);
      var other :| other in w.table && other != id && w.table[other].backend == Nft && w.table[other].edgeIp == a;
      assert other in t;
    }
  }

  lemma LogLetsGo(w: World, log: seq<Generation>, id: string)
    requires Gone(w, id)
    ensures Gone(w.(log := log), id)
  {
    var rows :| LiveBacked(w, rows, Some(id));
    assert LiveBacked(w.(log := log), rows, Some(id));
  }

  lemma LoopStepDetaches(w: World, pc: Pc, a: Answer, id: string)
    requires Tidy(w, pc) && Detaching(w, pc, id) && InLoop(pc)
    ensures Detaching(Step(w, pc, a).0, Step(w, pc, a).1, id)
  {
    hide OrphanFree, Prepare, AddressFrom, ProbeFrom, Current, Probed, WithAddr, RulesText, LiveGone, AddedGone;
    match pc
    case ShowAddrs(job, i, ups, downs) =>
      if i < |job.rows| && job.rows[i].enabled == (job.rows[i].edgeIp in w.addrs) {
        ShowLetsGo(w, job, i, id);
        DetachingFromAddress(w, job, i + 1, ups, downs, id);
      }
    case ChangeAddr(job, i, ups, downs) =>
      if i < |job.rows| {
        var w' := WithAddr(w, job.rows[i]);
        ChangeLetsGo(w, job, i, id);
        WithAddrKeepsTable(w, job.rows[i]);
        DetachingFromAddress(w', job, i + 1, ups + [job.rows[i].edgeIp], downs, id);
        DetachingFromAddress(w', job, i + 1, ups, downs + [job.rows[i].edgeIp], id);
      }
    case Probe(job, i, report) =>
      if i < |job.rows| {
        var w' := Probed(w, job.rows[i], a);
        ProbedIsTidy(w, job.rows[i], a);
        CalmLetsGo(w, w'.table, id);
        DetachingFromProbe(w', job, i + 1, report, id);
      }
  }

  lemma StepDetaches(w: World, pc: Pc, a: Answer, id: string)
    requires Tidy(w, pc) && Detaching(w, pc, id)
    ensures Detaching(Step(w, pc, a).0, Step(w, pc, a).1, id)
  {
    hide OrphanFree, Prepare, AddressFrom, ProbeFrom, Current, RulesText, LiveGone, AddedGone;
    hide ShowStep, ChangeStep, ProbeStep;
    match pc
    case ListRows(options) =>
      PrepareKeepsOptions(w, options);
    case ApplyFile(job) =>
      ApplyLetsGo(w, job, id);
      DetachingFromAddress(w.(live := Some(job.text)), job, 0, [], [], id);
    case RecordActive(job, ups, downs) =>
      var w' := Record(w, Activated, job.text);
      LogLetsGo(w, w'.log, id);
      DetachingFromProbe(w', job, 0, Report(job.text, Some(|w.log| + 1), ups, downs, 0), id);
    case _ =>
      if InLoop(pc) {
        LoopStepDetaches(w, pc, a, id);
      }
  }

  lemma WithAddrKeepsTable(w: World, m: Mapping)
    ensures WithAddr(w, m).table == w.table
  {
  }

  lemma PrepareKeepsOptions(w: World, options: Options)
    ensures Prepare(w, options).RecordRendered? ==> Prepare(w, options).job.options == options
    ensures options == DELETE_OPTIONS ==> !(Prepare(w, options).Finished? && Prepare(w, options).outcome.Reported?)
    ensures Prepare(w, options).Finished? || Prepare(w, options).RecordRendered?
  {
  }

  // ---- Every serial run ----

  ghost predicate DeleteTidy(w: World, pc: DeletePc) {
    && OrphanFree(w)
    && match pc
       case SwitchOff(_) => true
       case ConfirmOff(id) => id in w.table ==> !w.table[id].enabled
       case Pushing(id, call) => Tidy(w, call) && Detaching(w, call, id)
       case FetchDoomed(id) => Gone(w, id)
       case RemoveDoomed(id, _) => Gone(w, id)
       case Done(_) => true
  }

  lemma RemovalKeepsBacking(w: World, rows: seq<Mapping>, id: string)
    requires LiveBacked(w, rows, Some(id))
    ensures LiveBacked(w.(table := DeleteStatement(w.table, id)), rows, None)
  {
  }

  lemma RemovalKeepsKeyed(t: Table, id: string)
    requires Keyed(t)
    ensures Keyed(DeleteStatement(t, id))
  {
  }

  lemma RemovalIsClean(w: World, id: string)
    requires OrphanFree(w) && Gone(w, id)
    ensures OrphanFree(w.(table := DeleteStatement(w.table, id)))
  {
    hide LiveBacked, Route, Keyed;
    var w' := w.(table := DeleteStatement(w.table, id));
    var rows :| LiveBacked(w, rows, Some(id));
    RemovalKeepsBacking(w, rows, id);
    RemovalKeepsKeyed(w.table, id);
    forall a | a in w.added
      ensures NamedIn(w'.table, a)
    {
      assert NamedByOther(w.table, id, a);
      var other :| other in w.table && other != id && w.table[other].backend == Nft && w.table[other].edgeIp == a;
      assert other in w'.table;
    }
  }

  lemma SwitchIsClean(w: World, id: string, enabled: bool, now: Time)
    requires OrphanFree(w)
    ensures match EnableStatement(w.table, id, enabled, now)
            case None => true
            case Some(t) => OrphanFree(w.(table := t))
  {
    hide OrphanFree, Admits;
    OrphanFreeKeyed(w);
    match EnableStatement(w.table, id, enabled, now)
    case None =>
    case Some(t) =>
      assert forall other :: other in w.table ==> Route(w.table[other]) == Route(t[other]);
      RoutesKeepOrphanFree(w, t);
  }

  lemma DeleteStepIsTidy(w: World, pc: DeletePc, a: Answer)
    requires DeleteTidy(w, pc)
    ensures DeleteTidy(DeleteStep(w, pc, a).0, DeleteStep(w, pc, a).1)
  {
    hide OrphanFree, Step, Gone, Admits;
    match pc
    case SwitchOff(id) =>
      SwitchIsClean(w, id, false, a.now);
    case Pushing(id, call) =>
      StepIsTidy(w, call, a);
      StepDetaches(w, call, a, id);
    case RemoveDoomed(id, _) =>
      RemovalIsClean(w, id);
    case _ =>
  }

  lemma {:induction false} DeleteStepsTidy(w: World, pc: DeletePc, env: Environment, k: nat, n: nat)
    requires DeleteTidy(w, pc)
    ensures DeleteTidy(DeleteSteps(w, pc, env, k, n).0, DeleteSteps(w, pc, env, k, n).1)
    decreases n
  {
    hide DeleteTidy, DeleteStep;
    if n > 0 {
      DeleteStepIsTidy(w, pc, env(k));
      DeleteStepsTidy(DeleteStep(w, pc, env(k)).0, DeleteStep(w, pc, env(k)).1, env, k + 1, n - 1);
    }
  }

  lemma {:induction false} StepsTidy(w: World, pc: Pc, env: Environment, k: nat, n: nat)
    requires Tidy(w, pc)
    ensures Tidy(Steps(w, pc, env, k, n).0, Steps(w, pc, env, k, n).1)
    decreases n
  {
    hide Tidy, Step;
    if n > 0 {
      StepIsTidy(w, pc, env(k));
      StepsTidy(Step(w, pc, env(k)).0, Step(w, pc, env(k)).1, env, k + 1, n - 1);
    }
  }

  // `ok` is whether the database answers; `calls` is where a longer call is cut off. A release meets
  // the cloud in any state.
  datatype AgentOp =
    | Create(m: Mapping, ok: bool)
    | Switch(id: string, enabled: bool, now: Time, ok: bool)
    | Reconcile(options: Options, env: Environment, calls: nat)
    | Delete(id: string, env: Environment, calls: nat)
    | Release(cloud: Oci.Saga, id: string, replies: Oci.Replies)

  ghost function AgentStep(w: World, op: AgentOp): World {
    match op
    case Create(m, ok) => if ok then w.(table := SqlExec(Some(w.config), w.table, Insert(m)).0) else w
    case Switch(id, enabled, now, ok) =>
      if ok then w.(table := SqlExec(Some(w.config), w.table, SetEnabled(id, enabled, now)).0) else w
    case Reconcile(options, env, calls) => Steps(w, ListRows(options), env, 0, calls).0
    case Delete(id, env, calls) => DeleteSteps(w, SwitchOff(id), env, 0, calls).0
    case Release(cloud, id, replies) =>
      w.(table := Oci.Release(cloud.(table := w.table, config := Some(w.config)), id, replies, 0).0.table)
  }

  ghost function AgentRun(w: World, ops: seq<AgentOp>): World
    decreases |ops|
  {
    if ops == [] then w else AgentRun(AgentStep(w, ops[0]), ops[1..])
  }

  lemma CreateIsClean(w: World, m: Mapping)
    requires OrphanFree(w)
    ensures OrphanFree(w.(table := SqlExec(Some(w.config), w.table, Insert(m)).0))
  {
    hide OrphanFree, Writable, Admits;
    OrphanFreeKeyed(w);
    RoutesKeepOrphanFree(w, SqlExec(Some(w.config), w.table, Insert(m)).0);
  }

  // A release keeps the edge address of its row and every rule.
  lemma ReleaseIsClean(w: World, cloud: Oci.Saga, id: string, replies: Oci.Replies)
    requires OrphanFree(w) && cloud.table == w.table
    ensures OrphanFree(w.(table := Oci.Release(cloud, id, replies, 0).0.table))
  {
    hide OrphanFree, Oci.Release;
    OrphanFreeKeyed(w);
    Oci.ReleaseWrites(cloud, id, replies, 0);
    var t := Oci.Release(cloud, id, replies, 0).0.table;
    if t != w.table {
      var now :| t == w.table[id := Oci.ReleasedRow(w.table[id], now)];
      assert Route(t[id]) == Route(w.table[id]);
    }
    RoutesKeepOrphanFree(w, t);
  }

  lemma AgentStepIsClean(w: World, op: AgentOp)
    requires OrphanFree(w)
    ensures OrphanFree(AgentStep(w, op))
  {
    hide OrphanFree, Writable, Admits, Steps, DeleteSteps, Oci.Release;
    match op
    case Create(m, ok) =>
      CreateIsClean(w, m);
    case Switch(id, enabled, now, ok) =>
      SwitchIsClean(w, id, enabled, now);
    case Reconcile(options, env, calls) =>
      StepsTidy(w, ListRows(options), env, 0, calls);
    case Delete(id, env, calls) =>
      DeleteStepsTidy(w, SwitchOff(id), env, 0, calls);
    case Release(cloud, id, replies) =>
      ReleaseIsClean(w, cloud.(table := w.table, config := Some(w.config)), id, replies);
  }

  // In every serial run of create, enable, disable, reconcile, delete and release, whatever fails and
  // wherever a call is cut off, the live table stands for stored rows only and every address that
  // a reconcile added is named by a stored row.
  lemma {:induction false} NoOrphans(w: World, ops: seq<AgentOp>)
    requires OrphanFree(w)
    ensures OrphanFree(AgentRun(w, ops))
    decreases |ops|
  {
    hide OrphanFree, AgentStep;
    if ops != [] {
      AgentStepIsClean(w, ops[0]);
      NoOrphans(AgentStep(w, ops[0]), ops[1..]);
    }
  }

  // The rows that stand behind a rewrite are stored.
  lemma BackedTrafficBelongsToRows(w: World, rows: seq<Mapping>, p: Packet)
    requires LiveBacked(w, rows, None)
    requires Translate(Compile(rows, w.config, TABLE_NAME), p).Rewritten?
    ensures exists id :: id in w.table && Claims(w.table[id].(enabled := true), w.config.wan, p)
                         && Destination(w.table[id], p) == Translate(Compile(rows, w.config, TABLE_NAME), p)
  {
    hide Translate, Compile, RulesText;
    RewriteHasClaimant(rows, w.config, TABLE_NAME, p);
    var i :| 0 <= i < |rows| && Claims(rows[i], w.config.wan, p)
             && Translate(Compile(rows, w.config, TABLE_NAME), p) == Destination(rows[i], p);
    assert rows[i] in rows && IsLive(rows[i]);
    SameRoute(rows[i], w.table[rows[i].id]);
  }

  // Read as an nft file, the live text rewrites a packet only to what some stored row prescribes for
  // it, were it switched on.
  ghost predicate TrafficBelongsToRows(w: World, p: Packet) {
    w.live.Some? ==>
      && ReadFile(w.live.value).Some?
      && var verdict := Prerouting(ReadFile(w.live.value).value, p);
         verdict.Rewritten? ==>
           exists id :: id in w.table && Claims(w.table[id].(enabled := true), w.config.wan, p)
                        && Destination(w.table[id], p) == verdict
  }

  lemma LiveTrafficBelongsToRows(w: World, p: Packet)
    requires OrphanFree(w) && Quotable(w.config.wan) && Quotable(w.config.netbird)
    ensures TrafficBelongsToRows(w, p)
  {
    hide Translate, Compile, ReadFile, FileOf, Prerouting, RulesetText, ReadableRuleset;
    if w.live.Some? {
      var rows :| LiveBacked(w, rows, None);
      CompiledIsReadable(rows, w.config, TABLE_NAME);
      ReadsFile(Compile(rows, w.config, TABLE_NAME));
      FileRuns(Compile(rows, w.config, TABLE_NAME), p, "", p.daddr);
      if Translate(Compile(rows, w.config, TABLE_NAME), p).Rewritten? {
        BackedTrafficBelongsToRows(w, rows, p);
      }
    }
  }

  lemma StepKeepsConfig(w: World, pc: Pc, a: Answer)
    ensures Step(w, pc, a).0.config == w.config
  {
    hide Prepare, AddressFrom, ProbeFrom, HealthStatement;
  }

  lemma {:induction false} StepsKeepConfig(w: World, pc: Pc, env: Environment, k: nat, n: nat)
    ensures Steps(w, pc, env, k, n).0.config == w.config
    decreases n
  {
    hide Step;
    if n > 0 {
      StepKeepsConfig(w, pc, env(k));
      StepsKeepConfig(Step(w, pc, env(k)).0, Step(w, pc, env(k)).1, env, k + 1, n - 1);
    }
  }

  lemma {:induction false} DeleteStepsKeepConfig(w: World, pc: DeletePc, env: Environment, k: nat, n: nat)
    ensures DeleteSteps(w, pc, env, k, n).0.config == w.config
    decreases n
  {
    hide Step;
    if n > 0 {
      if pc.Pushing? {
        StepKeepsConfig(w, pc.call, env(k));
      }
      DeleteStepsKeepConfig(DeleteStep(w, pc, env(k)).0, DeleteStep(w, pc, env(k)).1, env, k + 1, n - 1);
    }
  }

  lemma AgentStepKeepsConfig(w: World, op: AgentOp)
    ensures AgentStep(w, op).config == w.config
  {
    hide SqlExec, Steps, DeleteSteps;
    match op
    case Reconcile(options, env, calls) => StepsKeepConfig(w, ListRows(options), env, 0, calls);
    case Delete(id, env, calls) => DeleteStepsKeepConfig(w, SwitchOff(id), env, 0, calls);
    case _ =>
  }

  // After every serial run, whatever failed in it, the live text sends packets only where stored
  // rows say.
  lemma {:induction false} EveryRunsTrafficBelongsToRows(w: World, ops: seq<AgentOp>, p: Packet)
    requires OrphanFree(w) && Quotable(w.config.wan) && Quotable(w.config.netbird)
    ensures TrafficBelongsToRows(AgentRun(w, ops), p)
    decreases |ops|
  {
    hide OrphanFree, AgentStep, TrafficBelongsToRows;
    if ops == [] {
      LiveTrafficBelongsToRows(w, p);
    } else {
      AgentStepIsClean(w, ops[0]);
      AgentStepKeepsConfig(w, ops[0]);
      EveryRunsTrafficBelongsToRows(AgentStep(w, ops[0]), ops[1..], p);
    }
  }
}
