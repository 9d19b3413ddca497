// Many clients of the SQL store at once. Each call reads the configuration, reads the rows and then
// writes with one statement, and any other client may run in between.
module Interleaving {
  import opened Wrappers
  import opened Mappings
  import opened Validation
  import opened RowCodec
  import opened Tables
  import opened Site

  datatype Write = NewRow(m: Mapping) | ChangeRow(m: Mapping)

  // Where a client stands inside its current call.
  datatype Client =
    | Idle
    | Configured(write: Write)
    | Snapshotted(write: Write, snapshot: Table)
    | Fetched(id: string)

  datatype System = System(config: Option<EdgeConfig>, table: Table, clients: map<nat, Client>)

  // One atomic step of one client; any step may instead be the failure of the call.
  datatype Action =
    | ReadConfig(c: nat, write: Write)
    | ReadRows(c: nat)
    | WriteRow(c: nat)
    | Enable(c: nat, id: string, enabled: bool, now: Time)
    | Health(c: nat, id: string, status: Status, health: Option<string>, error: Option<string>, now: Time)
    | FetchRow(c: nat, id: string)
    | RemoveRow(c: nat)
    | Configure(c: nat, config: EdgeConfig)
    | Abort(c: nat)

  function At(s: System, c: nat): Client {
    if c in s.clients then s.clients[c] else Idle
  }

  function Goto(s: System, c: nat, client: Client): System {
    s.(clients := s.clients[c := client])
  }

  // The single statement of an insert or an update, decided on a snapshot that may be stale.
  ghost function WriteStatement(t: Table, write: Write, snapshot: Table): Option<Table> {
    if !DuplicateFree(snapshot, write.m) then None
    else match write
      case NewRow(m) => InsertStatement(t, m)
      case ChangeRow(m) => UpdateStatement(t, m)
  }

  // The system after a step. A step that the client's position does not offer changes nothing.
  ghost function Step(s: System, a: Action): System {
    match a
    case ReadConfig(c, write) =>
      if At(s, c).Idle? && s.config.Some? && ValidMapping(write.m, s.config.value) then Goto(s, c, Configured(write))
      else s
    case ReadRows(c) =>
      if At(s, c).Configured? then Goto(s, c, Snapshotted(At(s, c).write, s.table)) else s
    case WriteRow(c) =>
      if At(s, c).Snapshotted? then
        Goto(s, c, Idle).(table := WriteStatement(s.table, At(s, c).write, At(s, c).snapshot).GetOr(s.table))
      else s
    case Enable(c, id, enabled, now) =>
      if At(s, c).Idle? then s.(table := EnableStatement(s.table, id, enabled, now).GetOr(s.table)) else s
    case Health(c, id, status, health, error, now) =>
      if At(s, c).Idle? then s.(table := HealthStatement(s.table, id, status, health, error, now)) else s
    case FetchRow(c, id) =>
      if At(s, c).Idle? && id in s.table then Goto(s, c, Fetched(id)) else s
    case RemoveRow(c) =>
      if At(s, c).Fetched? then Goto(s, c, Idle).(table := DeleteStatement(s.table, At(s, c).id)) else s
    case Configure(c, config) =>
      if At(s, c).Idle? && ValidateEdgeConfig(config).Pass? then s.(config := Some(config)) else s
    case Abort(c) => Goto(s, c, Idle)
  }

  ghost function Run(s: System, actions: seq<Action>): System
    decreases |actions|
  {
    if actions == [] then s else Run(Step(s, actions[0]), actions[1..])
  }

  const EMPTY := System(None, map[], map[])

  // ---- Safety of every interleaving ----

  // Enabled rows never clash, every row has the port its mode needs, and so has every row a client
  // is about to write.
  ghost predicate Safe(s: System) {
    && Keyed(s.table)
    && EnabledClean(s.table)
    && (forall id :: id in s.table ==> PortReady(s.table[id]))
    && (forall c :: c in s.clients && (s.clients[c].Configured? || s.clients[c].Snapshotted?) ==>
          PortReady(s.clients[c].write.m))
  }

  // A statement that the guards let through keeps the enabled rows clean, whatever the writer knew.
  lemma GuardedWriteIsSafe(t: Table, m: Mapping)
    requires Keyed(t) && EnabledClean(t) && PortReady(m) && Admits(t, m)
    requires forall id :: id in t ==> PortReady(t[id])
    ensures var t' := t[m.id := m];
            Keyed(t') && EnabledClean(t') && forall id :: id in t' ==> PortReady(t'[id])
  {
    hide Blocks, Encode;
    var t' := t[m.id := m];
    forall a, b | a in t' && b in t' && a != b
      ensures !EnabledClash(t'[a], t'[b])
    {
      if a == m.id {
        GuardsExact(m, t[b]);
        ClashSymmetric(m, t[b]);
      } else if b == m.id {
        GuardsExact(m, t[a]);
      }
    }
  }

  lemma StepIsSafe(s: System, a: Action)
    requires Safe(s)
    ensures Safe(Step(s, a))
  {
    hide Blocks, Encode, ValidateMapping, Conflicts, SharesPublicIp, DuplicateFree;
    match a
    case ReadConfig(c, write) =>
      if s.config.Some? && ValidMapping(write.m, s.config.value) {
        ValidPortForwardHasPort(write.m, s.config.value);
      }
    case WriteRow(c) =>
      if At(s, c).Snapshotted? {
        WriteStepIsSafe(s.table, At(s, c).write, At(s, c).snapshot);
      }
    case Enable(c, id, enabled, now) =>
      if id in s.table && Admits(s.table, WithEnabled(s.table[id], enabled, now)) {
        GuardedWriteIsSafe(s.table, WithEnabled(s.table[id], enabled, now));
      }
    case Health(c, id, status, health, error, now) =>
      HealthIsSafe(s.table, id, status, health, error, now);
    case _ =>
  }

  lemma WriteStepIsSafe(t: Table, write: Write, snapshot: Table)
    requires Keyed(t) && EnabledClean(t) && PortReady(write.m)
    requires forall id :: id in t ==> PortReady(t[id])
    ensures var t' := WriteStatement(t, write, snapshot).GetOr(t);
            Keyed(t') && EnabledClean(t') && forall id :: id in t' ==> PortReady(t'[id])
  {
    hide Blocks, Encode, EnabledClash, DuplicateFree;
    match write
    case NewRow(m) =>
      if Admits(t, m) {
        GuardedWriteIsSafe(t, m);
      }
    case ChangeRow(m) =>
      if m.id in t {
        var row := m.(createdAt := t[m.id].createdAt);
        if Admits(t, row) {
          GuardedWriteIsSafe(t, row);
        }
      }
  }

  lemma HealthIsSafe(
    t: Table, id: string, status: Status, health: Option<string>, error: Option<string>, now: Time)
    requires Keyed(t) && EnabledClean(t) && forall id :: id in t ==> PortReady(t[id])
    ensures var t' := HealthStatement(t, id, status, health, error, now);
            Keyed(t') && EnabledClean(t') && forall id :: id in t' ==> PortReady(t'[id])
  {
    if id in t {
      var row := WithHealth(t[id], status, health, error, now);
      var t' := HealthStatement(t, id, status, health, error, now);
      forall a, b | a in t' && b in t' && a != b
        ensures !EnabledClash(t'[a], t'[b])
      {
        assert !EnabledClash(t[a], t[b]);
      }
    }
  }

  // However the clients interleave, and wherever they fail, enabled rows never conflict and no
  // enabled one-to-one row shares its public address with another enabled row.
  lemma {:induction false} EveryInterleavingIsSafe(s: System, actions: seq<Action>)
    requires Safe(s)
    ensures Safe(Run(s, actions))
    ensures forall a, b :: a in Run(s, actions).table && b in Run(s, actions).table && a != b ==>
              var x, y := Run(s, actions).table[a], Run(s, actions).table[b];
              !Conflicts(x, y) && !(x.enabled && y.enabled && SharesPublicIp(x, y))
    decreases |actions|
  {
    hide Step;
    if actions == [] {
      forall a, b | a in s.table && b in s.table && a != b
        ensures !Conflicts(s.table[a], s.table[b])
      {
        assert !EnabledClash(s.table[a], s.table[b]);
      }
    } else {
      StepIsSafe(s, actions[0]);
      EveryInterleavingIsSafe(Step(s, actions[0]), actions[1..]);
    }
  }

  lemma FreshStoreIsSafe(actions: seq<Action>)
    ensures EnabledClean(Run(EMPTY, actions).table)
  {
    EveryInterleavingIsSafe(EMPTY, actions);
  }

  // ---- Serial calls are the store operations ----

  function OpOf(write: Write, now: Time): StoreOp {
    match write
    case NewRow(m) => Insert(m)
    case ChangeRow(m) => Update(m, now)
  }

  // The row that a step puts into the table.
  ghost function Written(s: System, a: Action): Option<Mapping> {
    if a.WriteRow? && At(s, a.c).Snapshotted? then
      var write := At(s, a.c).write;
      if WriteStatement(s.table, write, At(s, a.c).snapshot).Some? && (write.NewRow? || write.m.id in s.table) then
        Some(write.m)
      else None
    else None
  }

  // A call whose steps run back to back is the serial operation: it leaves the same rows, and its
  // last step writes exactly when the operation succeeds.
  lemma UndisturbedCallIsSerial(s: System, c: nat, write: Write, now: Time)
    requires At(s, c).Idle?
    ensures var (t, ok) := SqlExec(s.config, s.table, OpOf(write, now));
            && Run(s, [ReadConfig(c, write), ReadRows(c), WriteRow(c)]).table == t
            && (Written(Run(s, [ReadConfig(c, write), ReadRows(c)]), WriteRow(c)).Some? <==> ok)
  {
    hide Blocks, Encode, ValidateMapping, RowCheck;
    var s1 := Step(s, ReadConfig(c, write));
    var s2 := Step(s1, ReadRows(c));
    var s3 := Step(s2, WriteRow(c));
    RunPath([s, s1, s2, s3], [ReadConfig(c, write), ReadRows(c), WriteRow(c)]);
    RunPath([s, s1, s2], [ReadConfig(c, write), ReadRows(c)]);
  }

  // Switching is one statement, and a delete reads its row first: left alone both are the serial
  // operation too.
  lemma UndisturbedStatementsAreSerial(s: System, c: nat, id: string, enabled: bool, now: Time)
    requires At(s, c).Idle?
    ensures Step(s, Enable(c, id, enabled, now)).table == SqlExec(s.config, s.table, SetEnabled(id, enabled, now)).0
    ensures Run(s, [FetchRow(c, id), RemoveRow(c)]).table == SqlExec(s.config, s.table, Delete(id)).0
  {
    hide Admits, WithEnabled, WriteStatement, HealthStatement, ValidateMapping, ValidateEdgeConfig, Writable;
    var s1 := Step(s, FetchRow(c, id));
    RunPath([s, s1, Step(s1, RemoveRow(c))], [FetchRow(c, id), RemoveRow(c)]);
    assert id !in s.table ==> DeleteStatement(s.table, id) == s.table;
  }

  lemma {:induction false} RunPath(states: seq<System>, actions: seq<Action>)
    requires |states| == |actions| + 1
    requires forall i :: 0 <= i < |actions| ==> Step(states[i], actions[i]) == states[i + 1]
    ensures Run(states[0], actions) == states[|actions|]
    decreases |actions|
  {
    hide Step;
    if actions != [] {
      RunPath(states[1..], actions[1..]);
    }
  }

  // ---- When the stored list is accepted ----

  // Without a configuration there is no row and no write under way.
  ghost predicate Unconfigured(s: System) {
    s.config.None? ==>
      s.table == map[] && forall c :: c in s.clients ==> !s.clients[c].Configured? && !s.clients[c].Snapshotted?
  }

  // Under the configuration of this moment the rows are acceptable.
  ghost predicate Acceptable(s: System) {
    s.config.Some? ==> TableAccepts(s.table, s.config.value)
  }

  // What the step writes, if anything, shares a public address with no row as the rows are then,
  // where one of the two is one-to-one.
  ghost predicate WritesExclusively(s: System, a: Action) {
    Written(s, a).Some? ==>
      forall id :: id in s.table && id != Written(s, a).value.id ==> !SharesPublicIp(Written(s, a).value, s.table[id])
  }

  // What the step writes, if anything, is valid under the configuration of this moment.
  ghost predicate WritesValidly(s: System, a: Action) {
    Written(s, a).Some? && s.config.Some? ==> ValidMapping(Written(s, a).value, s.config.value)
  }

  // A new configuration, if the step stores one, keeps every stored row valid.
  ghost predicate ConfiguresValidly(s: System, a: Action) {
    a.Configure? && At(s, a.c).Idle? && ValidateEdgeConfig(a.config).Pass? ==>
      forall id :: id in s.table ==> ValidMapping(s.table[id], a.config)
  }

  ghost predicate KeepsAcceptable(s: System, a: Action) {
    WritesExclusively(s, a) && WritesValidly(s, a) && ConfiguresValidly(s, a)
  }

  // On a snapshot that is not stale the check has seen to the addresses.
  lemma CurrentSnapshotWritesExclusively(s: System, a: Action)
    requires a.WriteRow? && At(s, a.c).Snapshotted? ==> At(s, a.c).snapshot == s.table
    ensures WritesExclusively(s, a)
  {
    if Written(s, a).Some? {
      var m := Written(s, a).value;
      assert forall id :: id in s.table && id != m.id ==> RowCheck(s.table[id], m).Pass?;
    }
  }

  // What a write step leaves: the row it writes, with the creation time that is stored.
  lemma WriteStepResult(s: System, a: Action)
    requires Safe(s) && Written(s, a).Some?
    ensures exists created ::
              var row := Written(s, a).value.(createdAt := created);
              Admits(s.table, row) && Step(s, a).table == s.table[row.id := row]
  {
    hide Admits;
    var m := Written(s, a).value;
    var created := if At(s, a.c).write.NewRow? then m.createdAt else s.table[m.id].createdAt;
    var row := m.(createdAt := created);
    assert Admits(s.table, row) && Step(s, a).table == s.table[row.id := row];
  }

  lemma CreationIrrelevant(m: Mapping, created: Time, t: Table, config: EdgeConfig)
    ensures ValidMapping(m.(createdAt := created), config) == ValidMapping(m, config)
    ensures forall id :: id in t ==> SharesPublicIp(m.(createdAt := created), t[id]) == SharesPublicIp(m, t[id])
  {
    TimesIrrelevantToValidity(m, created, m.updatedAt, config);
    assert m.(createdAt := created, updatedAt := m.updatedAt) == m.(createdAt := created);
  }

  lemma WriteStepAcceptedExactly(s: System, a: Action)
    requires Safe(s) && Acceptable(s) && s.config.Some? && a.WriteRow?
    ensures Acceptable(Step(s, a)) <==> KeepsAcceptable(s, a)
  {
    hide Blocks, Encode, ValidateMapping, DuplicateFree, SharesPublicIp, Admits, Clash;
    if Written(s, a).Some? {
      var config, m := s.config.value, Written(s, a).value;
      WriteStepResult(s, a);
      var created :| var row := m.(createdAt := created);
                     Admits(s.table, row) && Step(s, a).table == s.table[row.id := row];
      var row := m.(createdAt := created);
      CreationIrrelevant(m, created, s.table, config);
      if ValidMapping(row, config) {
        AdmittedWriteAcceptedExactly(s.table, config, row);
      } else {
        assert Step(s, a).table[row.id] == row;
      }
    }
  }

  // A new configuration changes what is valid, and not what clashes.
  lemma ConfigureStepAcceptedExactly(s: System, a: Action)
    requires Safe(s) && Unconfigured(s) && Acceptable(s) && a.Configure?
    ensures Acceptable(Step(s, a)) <==> KeepsAcceptable(s, a)
  {
    hide ValidateMapping, ValidateEdgeConfig, Clash;
  }

  lemma OtherStepsKeepAcceptable(s: System, a: Action)
    requires Safe(s) && Acceptable(s) && !a.WriteRow? && !a.Configure?
    ensures Acceptable(Step(s, a)) && KeepsAcceptable(s, a)
  {
    hide Blocks, Encode, ValidateMapping, Clash;
    if s.config.Some? {
      var config := s.config.value;
      match a
      case Enable(c, id, enabled, now) =>
        if id in s.table && Admits(s.table, WithEnabled(s.table[id], enabled, now)) {
          EnableKeepsAccepted(s.table, config, id, enabled, now);
        }
      case Health(c, id, status, health, error, now) =>
        HealthKeepsAccepted(s.table, config, id, status, health, error, now);
      case _ =>
    }
  }

  lemma StepAcceptedExactly(s: System, a: Action)
    requires Safe(s) && Unconfigured(s) && Acceptable(s)
    ensures Unconfigured(Step(s, a))
    ensures Acceptable(Step(s, a)) <==> KeepsAcceptable(s, a)
  {
    hide Acceptable, KeepsAcceptable, ValidateMapping, ValidateEdgeConfig, Admits, DuplicateFree;
    if a.Configure? {
      ConfigureStepAcceptedExactly(s, a);
    } else if a.WriteRow? && s.config.Some? {
      WriteStepAcceptedExactly(s, a);
    } else if a.WriteRow? {
      IdleWriteKeepsAcceptable(s, a);
    } else {
      OtherStepsKeepAcceptable(s, a);
    }
  }

  lemma IdleWriteKeepsAcceptable(s: System, a: Action)
    requires Unconfigured(s) && s.config.None? && a.WriteRow?
    ensures Acceptable(Step(s, a)) && KeepsAcceptable(s, a)
  {
  }

  // At every point of the schedule, validation accepts the list of the stored rows under the
  // configuration of that moment.
  ghost predicate ListsAccepted(s: System, actions: seq<Action>)
    decreases |actions|
  {
    && (s.config.Some? ==> Accepts(Listing(s.table), s.config.value))
    && (actions != [] ==> ListsAccepted(Step(s, actions[0]), actions[1..]))
  }

  ghost predicate AllKeepAcceptable(s: System, actions: seq<Action>)
    decreases |actions|
  {
    actions != [] ==> KeepsAcceptable(s, actions[0]) && AllKeepAcceptable(Step(s, actions[0]), actions[1..])
  }

  lemma AcceptableListing(s: System)
    requires Safe(s) && s.config.Some?
    ensures Accepts(Listing(s.table), s.config.value) <==> Acceptable(s)
  {
    hide Accepts, Listing, TableAccepts;
    ListingIsListing(s.table);
    ListingAccepted(s.table, Listing(s.table), s.config.value);
  }

  // From any safe state with acceptable rows, whatever configurations come and go: the lists of a
  // schedule are all accepted exactly when each write, at its moment, is valid and shares a public
  // address with no stored row where either is one-to-one, and each new configuration keeps every
  // stored row valid. No other step matters.
  lemma {:induction false} ListsAcceptedExactly(s: System, actions: seq<Action>)
    requires Safe(s) && Unconfigured(s) && Acceptable(s)
    ensures ListsAccepted(s, actions) <==> AllKeepAcceptable(s, actions)
    decreases |actions|
  {
    hide Step, Safe, Unconfigured, Acceptable, Accepts, KeepsAcceptable, Listing;
    if s.config.Some? {
      AcceptableListing(s);
    }
    if actions != [] {
      var next := Step(s, actions[0]);
      StepIsSafe(s, actions[0]);
      StepAcceptedExactly(s, actions[0]);
      if Acceptable(next) {
        ListsAcceptedExactly(next, actions[1..]);
      } else {
        ConfiguredUnlessAcceptable(next);
        AcceptableListing(next);
      }
    }
  }

  lemma ConfiguredUnlessAcceptable(s: System)
    ensures !Acceptable(s) ==> s.config.Some?
  {
  }

  // No row that is off shares a public address with a row when one of the two is one-to-one.
  ghost predicate OffRowsExclusive(t: Table) {
    forall a, b :: a in t && b in t && a != b && !t[a].enabled ==> !SharesPublicIp(t[a], t[b])
  }

  lemma CleanTableAccepted(t: Table, config: EdgeConfig)
    requires EnabledClean(t)
    ensures TableAccepts(t, config) <==> OffRowsExclusive(t) && forall id :: id in t ==> ValidMapping(t[id], config)
  {
    hide ValidateMapping;
  }

  // The same for the schedules of a fresh store. The list at the end is accepted, under any
  // configuration, exactly when every row is valid under it and no row that is off shares its
  // public address in that way.
  lemma InterleavedListAccepted(actions: seq<Action>, config: EdgeConfig)
    ensures ListsAccepted(EMPTY, actions) <==> AllKeepAcceptable(EMPTY, actions)
    ensures var t := Run(EMPTY, actions).table;
            Accepts(Listing(t), config) <==>
            OffRowsExclusive(t) && forall id :: id in t ==> ValidMapping(t[id], config)
  {
    hide Run, Accepts, ValidateMapping, OffRowsExclusive, Listing, ListsAccepted, AllKeepAcceptable, TableAccepts;
    ListsAcceptedExactly(EMPTY, actions);
    EveryInterleavingIsSafe(EMPTY, actions);
    var t := Run(EMPTY, actions).table;
    CleanTableAccepted(t, config);
    ListingIsListing(t);
    ListingAccepted(t, Listing(t), config);
  }

  // ---- One configuration ----

  predicate KeepsConfig(a: Action, config: EdgeConfig) {
    a.Configure? ==> a.config == config
  }

  ghost predicate RowsValid(s: System, config: EdgeConfig) {
    && (s.config.Some? ==> s.config.value == config)
    && (forall id :: id in s.table ==> ValidMapping(s.table[id], config))
    && (forall c :: c in s.clients && (s.clients[c].Configured? || s.clients[c].Snapshotted?) ==>
          ValidMapping(s.clients[c].write.m, config))
  }

  lemma StepKeepsRowsValid(s: System, a: Action, config: EdgeConfig)
    requires RowsValid(s, config) && KeepsConfig(a, config)
    ensures RowsValid(Step(s, a), config)
    ensures WritesValidly(s, a) && ConfiguresValidly(s, a)
  {
    hide Blocks, Encode, ValidateMapping, DuplicateFree, ValidateEdgeConfig;
    match a
    case WriteRow(c) =>
      if At(s, c).Snapshotted? {
        var m := At(s, c).write.m;
        if m.id in s.table {
          TimesIrrelevantToValidity(m, s.table[m.id].createdAt, m.updatedAt, config);
          assert m.(createdAt := s.table[m.id].createdAt, updatedAt := m.updatedAt)
                 == m.(createdAt := s.table[m.id].createdAt);
        }
      }
    case Enable(c, id, enabled, now) =>
      if id in s.table {
        EnabledIrrelevantToValidity(s.table[id], enabled, now, config);
      }
    case Health(c, id, status, health, error, now) =>
      if id in s.table {
        HealthIrrelevantToValidity(s.table[id], status, health, error, now, config);
      }
    case _ =>
  }

  ghost predicate AllWriteExclusively(s: System, actions: seq<Action>)
    decreases |actions|
  {
    actions != [] ==> WritesExclusively(s, actions[0]) && AllWriteExclusively(Step(s, actions[0]), actions[1..])
  }

  // While the configuration stays, rows and writes stay valid, and only the addresses decide.
  lemma {:induction false} OneConfigurationKeepsRowsValid(s: System, actions: seq<Action>, config: EdgeConfig)
    requires RowsValid(s, config) && forall i :: 0 <= i < |actions| ==> KeepsConfig(actions[i], config)
    ensures RowsValid(Run(s, actions), config)
    ensures AllKeepAcceptable(s, actions) <==> AllWriteExclusively(s, actions)
    decreases |actions|
  {
    hide Step, WritesExclusively, WritesValidly, ConfiguresValidly, RowsValid;
    if actions != [] {
      StepKeepsRowsValid(s, actions[0], config);
      OneConfigurationKeepsRowsValid(Step(s, actions[0]), actions[1..], config);
    }
  }

  // Under one configuration, the lists of a schedule of a fresh store are all accepted exactly when
  // each write shares its public address with no stored row in that way, and the list at the end
  // exactly when no row that is off does.
  lemma OneConfigurationListAccepted(actions: seq<Action>, config: EdgeConfig)
    requires forall i :: 0 <= i < |actions| ==> KeepsConfig(actions[i], config)
    ensures ListsAccepted(EMPTY, actions) <==> AllWriteExclusively(EMPTY, actions)
    ensures Accepts(Listing(Run(EMPTY, actions).table), config) <==> OffRowsExclusive(Run(EMPTY, actions).table)
  {
    hide Run, Accepts, OffRowsExclusive, Listing, ListsAccepted, ValidateMapping;
    hide AllWriteExclusively, AllKeepAcceptable;
    InterleavedListAccepted(actions, config);
    OneConfigurationKeepsRowsValid(EMPTY, actions, config);
  }

  // ---- Two runs that end in a rejected list ----

  // The schedule behind the exception: one client checks an insert against a snapshot, another
  // inserts a row with the same public address and switches it off, and the first one writes.
  function StaleInsert(config: EdgeConfig, a: Mapping, b: Mapping, now: Time): seq<Action> {
    [Configure(0, config), ReadConfig(0, NewRow(b)), ReadRows(0),
     ReadConfig(1, NewRow(a)), ReadRows(1), WriteRow(1), Enable(1, a.id, false, now), WriteRow(0)]
  }

  lemma StaleInsertRuns(config: EdgeConfig, a: Mapping, b: Mapping, now: Time)
    requires ValidateEdgeConfig(config).Pass? && ValidMapping(a, config) && ValidMapping(b, config)
    requires a.id != b.id
    ensures Run(EMPTY, StaleInsert(config, a, b, now)).table == map[a.id := WithEnabled(a, false, now), b.id := b]
  {
    hide ValidateEdgeConfig, ValidateMapping, Blocks, Encode, RowCheck, Run;
    var off := WithEnabled(a, false, now);
    ValidPortForwardHasPort(b, config);
    GuardsExact(b, off);
    var waiting, snapshot := Snapshotted(NewRow(b), map[]), Snapshotted(NewRow(a), map[]);
    var c0 := map[0 := waiting];
    var states := [
      EMPTY,
      System(Some(config), map[], map[]),
      System(Some(config), map[], map[0 := Configured(NewRow(b))]),
      System(Some(config), map[], c0),
      System(Some(config), map[], c0[1 := Configured(NewRow(a))]),
      System(Some(config), map[], c0[1 := snapshot]),
      System(Some(config), map[a.id := a], c0[1 := Idle]),
      System(Some(config), map[a.id := off], c0[1 := Idle]),
      System(Some(config), map[a.id := off][b.id := b], c0[1 := Idle][0 := Idle])];
    RunPath(states, StaleInsert(config, a, b, now));
  }

  // Two clients of a fresh store can leave a list that validation rejects: the address of a row
  // that is off is also the address of another row.
  lemma InterleavingCanLeaveARejectedList()
    ensures var a, b := SiteRow("a", 41, 41, Some(PUBLIC)), SiteRow("b", 42, 42, Some(PUBLIC));
            var actions := StaleInsert(SITE, a, b, 0);
            && (forall i :: 0 <= i < |actions| ==> KeepsConfig(actions[i], SITE))
            && Run(EMPTY, actions).table == map["a" := WithEnabled(a, false, 0), "b" := b]
            && !Accepts(Listing(Run(EMPTY, actions).table), SITE)
  {
    hide ValidateMapping, ValidateEdgeConfig, Run, Accepts, Listing;
    var a, b := SiteRow("a", 41, 41, Some(PUBLIC)), SiteRow("b", 42, 42, Some(PUBLIC));
    SiteIsValid();
    SiteRowIsValid("a", 41, 41, Some(PUBLIC));
    SiteRowIsValid("b", 42, 42, Some(PUBLIC));
    StaleInsertRuns(SITE, a, b, 0);
    var t := Run(EMPTY, StaleInsert(SITE, a, b, 0)).table;
    assert "a" in t && "b" in t && SharesPublicIp(t["a"], t["b"]);
    ListingIsListing(t);
    ListingAccepted(t, Listing(t), SITE);
  }

  // One client alone can, too: it inserts a row and then stores a configuration whose target
  // network does not hold the row's target.
  lemma ReconfiguringCanLeaveARejectedList()
    ensures var row := SiteRow("a", 41, 41, None);
            var end := Run(EMPTY, [Configure(0, SITE), ReadConfig(0, NewRow(row)), ReadRows(0), WriteRow(0),
                                   Configure(0, MOVED)]);
            && end.table == map["a" := row] && end.config == Some(MOVED)
            && !Accepts(Listing(end.table), MOVED)
  {
    hide ValidateMapping, ValidateEdgeConfig, Blocks, Encode, RowCheck, Run, Accepts, Listing;
    var row := SiteRow("a", 41, 41, None);
    SiteIsValid();
    SiteRowIsValid("a", 41, 41, None);
    SiteRowIsInvalidAfterTheMove("a", 41, 41, None);
    var t := map["a" := row];
    var states := [
      EMPTY,
      System(Some(SITE), map[], map[]),
      System(Some(SITE), map[], map[0 := Configured(NewRow(row))]),
      System(Some(SITE), map[], map[0 := Snapshotted(NewRow(row), map[])]),
      System(Some(SITE), t, map[0 := Idle]),
      System(Some(MOVED), t, map[0 := Idle])];
    assert map[]["a" := row] == t;
    RunPath(states, [Configure(0, SITE), ReadConfig(0, NewRow(row)), ReadRows(0), WriteRow(0), Configure(0, MOVED)]);
    assert t["a"] == row && !TableAccepts(t, MOVED);
    ListingIsListing(t);
    ListingAccepted(t, Listing(t), MOVED);
  }
}
