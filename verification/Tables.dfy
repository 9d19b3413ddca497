// The mapping table as a value: what each statement and each store operation does to it.
module Tables {
  import opened Wrappers
  import opened Mappings
  import opened Validation
  import opened RowCodec
  import Text

  type Table = map<string, Mapping>

  ghost predicate Keyed(t: Table) {
    forall id :: id in t ==> t[id].id == id
  }

  // ---- Statements: each is one atomic step, and None means the database refused it ----

  // No other stored row makes the database refuse this one.
  ghost predicate Admits(t: Table, m: Mapping) {
    forall id :: id in t && id != m.id ==> !Blocks(Encode(m), Encode(t[id]))
  }

  ghost function InsertStatement(t: Table, m: Mapping): Option<Table> {
    if m.id in t || !Admits(t, m) then None else Some(t[m.id := m])
  }

  // An update keeps the stored creation time, and touches nothing when the row is gone.
  ghost function UpdateStatement(t: Table, m: Mapping): Option<Table> {
    if m.id !in t then Some(t)
    else
      var row := m.(createdAt := t[m.id].createdAt);
      if Admits(t, row) then Some(t[m.id := row]) else None
  }

  ghost function EnableStatement(t: Table, id: string, enabled: bool, now: Time): Option<Table> {
    if id !in t then Some(t)
    else
      var row := WithEnabled(t[id], enabled, now);
      if Admits(t, row) then Some(t[id := row]) else None
  }

  function WithHealth(m: Mapping, status: Status, health: Option<string>, error: Option<string>, now: Time): Mapping {
    m.(status := status, healthStatus := health, lastError := error, lastCheckedAt := Some(now), updatedAt := now)
  }

  // No guard watches the health columns.
  function HealthStatement(
    t: Table, id: string, status: Status, health: Option<string>, error: Option<string>, now: Time): Table
  {
    if id !in t then t else t[id := WithHealth(t[id], status, health, error, now)]
  }

  function DeleteStatement(t: Table, id: string): Table {
    t - {id}
  }

  // ---- Store operations, run without interference ----

  // The application's own check of a row against one stored row.
  function RowCheck(existing: Mapping, m: Mapping): Outcome<Error> {
    if SharesPublicIp(m, existing) then Fail(DuplicatePublicIp(m.publicIp.value))
    else if existing.mode == OneToOneSnat && m.mode == OneToOneSnat && existing.targetIp == m.targetIp then
      Fail(DuplicateTargetIp(m.targetIp))
    else if Conflicts(existing, m) then Fail(DuplicateEdgePrivateIp(m.edgeIp))
    else Pass
  }

  ghost predicate DuplicateFree(t: Table, m: Mapping) {
    forall id :: id in t && id != m.id ==> RowCheck(t[id], m).Pass?
  }

  datatype StoreOp =
    | Insert(m: Mapping)
    | Update(m: Mapping, now: Time)
    | SetEnabled(id: string, enabled: bool, now: Time)
    | Delete(id: string)

  ghost predicate Writable(config: Option<EdgeConfig>, t: Table, m: Mapping) {
    config.Some? && ValidMapping(m, config.value) && DuplicateFree(t, m)
  }

  // The table after an operation of the SQL store, and whether the operation succeeded.
  ghost function SqlExec(config: Option<EdgeConfig>, t: Table, op: StoreOp): (Table, bool) {
    match op
    case Insert(m) =>
      if !Writable(config, t, m) then (t, false)
      else (match InsertStatement(t, m) case None => (t, false) case Some(t') => (t', true))
    case Update(m, _) =>
      if !Writable(config, t, m) then (t, false)
      else (match UpdateStatement(t, m) case None => (t, false) case Some(t') => (t', m.id in t))
    case SetEnabled(id, enabled, now) =>
      (match EnableStatement(t, id, enabled, now) case None => (t, false) case Some(t') => (t', id in t))
    case Delete(id) =>
      (DeleteStatement(t, id), id in t)
  }

  ghost function SqlRun(config: Option<EdgeConfig>, t: Table, ops: seq<StoreOp>): (Table, seq<bool>)
    decreases |ops|
  {
    if ops == [] then (t, [])
    else
      var (t', ok) := SqlExec(config, t, ops[0]);
      var (end, oks) := SqlRun(config, t', ops[1..]);
      (end, [ok] + oks)
  }

  // ---- What each operation does to its row ----

  // The same rows but for one.
  ghost predicate OnlyRowChanged(t: Table, u: Table, id: string) {
    u.Keys == t.Keys && forall other :: other in t && other != id ==> u[other] == t[other]
  }

  // Switching sets the switch, the status that goes with it and the time, and nothing else; it fails
  // without effect when the row is missing or the database refuses what it would become.
  lemma SwitchSetsTheRow(config: Option<EdgeConfig>, t: Table, id: string, enabled: bool, now: Time)
    requires Keyed(t)
    ensures var (t', ok) := SqlExec(config, t, SetEnabled(id, enabled, now));
            && (!ok ==> t' == t)
            && (ok ==>
                  && id in t && OnlyRowChanged(t, t', id)
                  && t'[id].enabled == enabled && t'[id].status == (if enabled then Pending else Status.Disabled)
                  && t'[id].updatedAt == now
                  && SameTerms(t[id], t'[id]) && SameHealth(t[id], t'[id]) && SameAssigned(t[id], t'[id]))
  {
    hide Admits;
  }

  // A health report sets the four health fields and the time, and nothing else.
  lemma HealthSetsTheRow(
    t: Table, id: string, status: Status, health: Option<string>, error: Option<string>, now: Time)
    requires id in t
    ensures var t' := HealthStatement(t, id, status, health, error, now);
            && OnlyRowChanged(t, t', id)
            && t'[id].status == status && t'[id].healthStatus == health && t'[id].lastError == error
            && t'[id].lastCheckedAt == Some(now) && t'[id].updatedAt == now && t'[id].enabled == t[id].enabled
            && SameTerms(t[id], t'[id]) && SameAssigned(t[id], t'[id])
  {
  }

  // An insert adds its row as it is, an update replaces the row but for its creation time, a delete
  // takes the row out; what fails changes nothing.
  lemma WritesSetTheRow(config: Option<EdgeConfig>, t: Table, m: Mapping, now: Time)
    requires Keyed(t)
    ensures var (t', ok) := SqlExec(config, t, Insert(m));
            (!ok ==> t' == t) && (ok ==> m.id !in t && t'.Keys == t.Keys + {m.id} && t'[m.id] == m
                                         && forall id :: id in t ==> t'[id] == t[id])
    ensures var (t', ok) := SqlExec(config, t, Update(m, now));
            (!ok ==> t' == t) && (ok ==> m.id in t && OnlyRowChanged(t, t', m.id)
                                         && t'[m.id].createdAt == t[m.id].createdAt
                                         && t'[m.id].(createdAt := m.createdAt) == m)
    ensures var (t', ok) := SqlExec(config, t, Delete(m.id));
            (ok <==> m.id in t) && t'.Keys == t.Keys - {m.id} && forall id :: id in t' ==> t'[id] == t[id]
  {
    hide Admits, Writable;
  }

  // The check of a row against a stored one passes exactly when they do not clash and are not two
  // one-to-one mappings to the same target. Its error names the address they share: the public one
  // if that is shared, else the target, else the edge address.
  lemma RowCheckExact(existing: Mapping, m: Mapping)
    ensures RowCheck(existing, m).Pass? <==>
            && !Clash(m, existing)
            && !(existing.mode == m.mode == OneToOneSnat && existing.targetIp == m.targetIp)
    ensures RowCheck(existing, m).Fail? ==>
              match RowCheck(existing, m).error
              case DuplicatePublicIp(ip) =>
                existing.publicIp == Some(ip) == m.publicIp && OneToOneSnat in {existing.mode, m.mode}
              case DuplicateTargetIp(ip) =>
                existing.targetIp == ip == m.targetIp && existing.mode == m.mode == OneToOneSnat
              case DuplicateEdgePrivateIp(ip) =>
                existing.edgeIp == ip == m.edgeIp && existing.enabled && m.enabled
              case _ => false
    ensures RowCheck(existing, m).Fail? ==>
              && (RowCheck(existing, m).error.DuplicatePublicIp? <==> SharesPublicIp(existing, m))
              && (RowCheck(existing, m).error.DuplicateTargetIp? <==>
                  && !SharesPublicIp(existing, m)
                  && existing.mode == m.mode == OneToOneSnat && existing.targetIp == m.targetIp)
  {
  }

  // ---- What serial operations keep ----

  ghost predicate EnabledClean(t: Table) {
    forall a, b :: a in t && b in t && a != b ==> !EnabledClash(t[a], t[b])
  }

  // Every row, enabled or not, is valid and clashes with no other.
  ghost predicate TableAccepts(t: Table, config: EdgeConfig) {
    && (forall id :: id in t ==> ValidMapping(t[id], config))
    && (forall a, b :: a in t && b in t && a != b ==> !Clash(t[a], t[b]))
  }

  // Passing the application's check implies passing the database's guards.
  lemma CheckedRowIsAdmitted(t: Table, m: Mapping)
    requires DuplicateFree(t, m)
    requires m.mode == PortForwardSnat ==> m.publicPort.Some?
    ensures Admits(t, m)
  {
    forall id | id in t && id != m.id
      ensures !Blocks(Encode(m), Encode(t[id]))
    {
      assert RowCheck(t[id], m).Pass?;
      GuardsExact(m, t[id]);
    }
  }

  // Writing a row that clashes with no other keeps the table acceptable.
  lemma WriteKeepsAccepted(t: Table, config: EdgeConfig, m: Mapping)
    requires Keyed(t) && TableAccepts(t, config) && ValidMapping(m, config)
    requires forall id :: id in t && id != m.id ==> !Clash(t[id], m)
    ensures Keyed(t[m.id := m]) && TableAccepts(t[m.id := m], config)
  {
    var t' := t[m.id := m];
    forall a, b | a in t' && b in t' && a != b
      ensures !Clash(t'[a], t'[b])
    {
      if a == m.id {
        ClashSymmetric(t[b], m);
      }
    }
  }

  lemma ClashingRows(x: Mapping, y: Mapping)
    ensures Clash(x, y) <==> EnabledClash(x, y) || SharesPublicIp(y, x)
  {
  }

  // A valid row that the guards admit keeps the table acceptable exactly when it shares its public
  // address with no other row in a way that one of the two claims it alone.
  lemma AdmittedWriteAcceptedExactly(t: Table, config: EdgeConfig, m: Mapping)
    requires Keyed(t) && TableAccepts(t, config) && ValidMapping(m, config) && Admits(t, m)
    ensures TableAccepts(t[m.id := m], config) <==> forall id :: id in t && id != m.id ==> !SharesPublicIp(m, t[id])
  {
    hide ValidateMapping, Blocks, Encode, SharesPublicIp, Clash, EnabledClash;
    ValidPortForwardHasPort(m, config);
    if forall id :: id in t && id != m.id ==> !SharesPublicIp(m, t[id]) {
      forall id | id in t && id != m.id
        ensures !Clash(t[id], m)
      {
        GuardsExact(m, t[id]);
        ClashingRows(t[id], m);
      }
      WriteKeepsAccepted(t, config, m);
    } else {
      var id :| id in t && id != m.id && SharesPublicIp(m, t[id]);
      var t' := t[m.id := m];
      ClashingRows(t[id], m);
      assert t'[id] == t[id] && t'[m.id] == m;
    }
  }

  lemma ClashSymmetric(x: Mapping, y: Mapping)
    ensures Clash(x, y) == Clash(y, x)
  {
  }

  lemma TimesIrrelevantToValidity(m: Mapping, created: Time, updated: Time, config: EdgeConfig)
    ensures ValidateMapping(m.(createdAt := created, updatedAt := updated), config) == ValidateMapping(m, config)
  {
  }

  lemma HealthIrrelevantToValidity(
    m: Mapping, status: Status, health: Option<string>, error: Option<string>, now: Time, config: EdgeConfig)
    ensures ValidateMapping(WithHealth(m, status, health, error, now), config) == ValidateMapping(m, config)
  {
  }

  // Switching a row on is admitted only beside rows it does not clash with; its public address was
  // exclusive before.
  lemma EnableKeepsAccepted(t: Table, config: EdgeConfig, id: string, enabled: bool, now: Time)
    requires Keyed(t) && TableAccepts(t, config) && id in t && Admits(t, WithEnabled(t[id], enabled, now))
    ensures Keyed(t[id := WithEnabled(t[id], enabled, now)])
    ensures TableAccepts(t[id := WithEnabled(t[id], enabled, now)], config)
  {
    var row := WithEnabled(t[id], enabled, now);
    EnabledIrrelevantToValidity(t[id], enabled, now, config);
    ValidPortForwardHasPort(t[id], config);
    forall other | other in t && other != row.id
      ensures !Clash(t[other], row)
    {
      GuardsExact(row, t[other]);
      assert !Clash(t[other], t[id]);
    }
    WriteKeepsAccepted(t, config, row);
  }

  lemma CheckedRowClashesWithNone(t: Table, m: Mapping)
    requires DuplicateFree(t, m)
    ensures forall id :: id in t && id != m.id ==> !Clash(t[id], m)
  {
    assert forall id :: id in t && id != m.id ==> RowCheck(t[id], m).Pass?;
  }

  lemma UpdateKeepsAccepted(t: Table, config: EdgeConfig, m: Mapping)
    requires Keyed(t) && TableAccepts(t, config) && ValidMapping(m, config) && DuplicateFree(t, m) && m.id in t
    ensures Keyed(t[m.id := m.(createdAt := t[m.id].createdAt)])
    ensures TableAccepts(t[m.id := m.(createdAt := t[m.id].createdAt)], config)
  {
    var row := m.(createdAt := t[m.id].createdAt);
    TimesIrrelevantToValidity(m, t[m.id].createdAt, m.updatedAt, config);
    assert m.(createdAt := t[m.id].createdAt, updatedAt := m.updatedAt) == row;
    CreationIrrelevantToCheck(t, m, t[m.id].createdAt);
    CheckedRowClashesWithNone(t, row);
    WriteKeepsAccepted(t, config, row);
  }

  // The row carries the public port its mode needs.
  predicate PortReady(m: Mapping) {
    m.mode == PortForwardSnat ==> m.publicPort.Some?
  }

  ghost predicate PortsReady(t: Table) {
    forall id :: id in t ==> PortReady(t[id])
  }

  // No row, enabled or not, fails the application's check against another.
  ghost predicate Exclusive(t: Table) {
    forall a, b :: a in t && b in t && a != b ==> RowCheck(t[a], t[b]).Pass?
  }

  lemma RowCheckSymmetric(x: Mapping, y: Mapping)
    ensures RowCheck(x, y).Pass? <==> RowCheck(y, x).Pass?
  {
  }

  lemma WriteKeepsExclusive(t: Table, m: Mapping)
    requires Keyed(t) && Exclusive(t) && DuplicateFree(t, m)
    ensures Exclusive(t[m.id := m])
  {
    hide RowCheck;
    forall b | b in t && b != m.id
      ensures RowCheck(m, t[b]).Pass?
    {
      RowCheckSymmetric(t[b], m);
    }
  }

  lemma CreationIrrelevantToCheck(t: Table, m: Mapping, created: Time)
    requires DuplicateFree(t, m)
    ensures DuplicateFree(t, m.(createdAt := created))
  {
  }

  // The guards see to what a switch can change; the rest of the check does not look at the switch.
  lemma AdmittedSwitchIsChecked(t: Table, id: string, enabled: bool, now: Time)
    requires Keyed(t) && Exclusive(t) && id in t && PortReady(t[id])
    requires Admits(t, WithEnabled(t[id], enabled, now))
    ensures DuplicateFree(t, WithEnabled(t[id], enabled, now))
  {
    var row := WithEnabled(t[id], enabled, now);
    forall other | other in t && other != row.id
      ensures RowCheck(t[other], row).Pass?
    {
      GuardsExact(row, t[other]);
      assert RowCheck(t[other], t[id]).Pass?;
    }
  }

  // Whatever the configuration is or becomes, serial operations keep any two rows passing the
  // application's check, switched off or not.
  lemma SqlExecKeepsExclusive(config: Option<EdgeConfig>, t: Table, op: StoreOp)
    requires Keyed(t) && Exclusive(t) && PortsReady(t)
    ensures var t' := SqlExec(config, t, op).0; Keyed(t') && Exclusive(t') && PortsReady(t')
  {
    hide RowCheck, Blocks, Encode, ValidateMapping;
    match op
    case Insert(m) =>
      if Writable(config, t, m) {
        ValidPortForwardHasPort(m, config.value);
        WriteKeepsExclusive(t, m);
      }
    case Update(m, _) =>
      if Writable(config, t, m) && m.id in t {
        ValidPortForwardHasPort(m, config.value);
        CreationIrrelevantToCheck(t, m, t[m.id].createdAt);
        WriteKeepsExclusive(t, m.(createdAt := t[m.id].createdAt));
      }
    case SetEnabled(id, enabled, now) =>
      if id in t && Admits(t, WithEnabled(t[id], enabled, now)) {
        AdmittedSwitchIsChecked(t, id, enabled, now);
        WriteKeepsExclusive(t, WithEnabled(t[id], enabled, now));
      }
    case Delete(id) =>
  }

  lemma AcceptedPortsReady(t: Table, config: EdgeConfig)
    requires TableAccepts(t, config)
    ensures PortsReady(t)
  {
    hide ValidateMapping;
    forall id | id in t
      ensures PortReady(t[id])
    {
      ValidPortForwardHasPort(t[id], config);
    }
  }

  // Under a fixed configuration every serial operation leaves a table whose full list, disabled
  // rows included, is accepted, and keeps any two rows passing the application's check.
  lemma SqlExecKeepsAccepted(config: EdgeConfig, t: Table, op: StoreOp)
    requires Keyed(t) && TableAccepts(t, config)
    ensures Keyed(SqlExec(Some(config), t, op).0)
    ensures TableAccepts(SqlExec(Some(config), t, op).0, config)
    ensures Exclusive(t) ==> Exclusive(SqlExec(Some(config), t, op).0)
  {
    hide Exclusive, RowCheck, Clash, Blocks, Encode, ValidateMapping;
    if Exclusive(t) {
      AcceptedPortsReady(t, config);
      SqlExecKeepsExclusive(Some(config), t, op);
    }
    match op
    case Insert(m) =>
      if Writable(Some(config), t, m) {
        CheckedRowClashesWithNone(t, m);
        WriteKeepsAccepted(t, config, m);
      }
    case Update(m, _) =>
      if Writable(Some(config), t, m) && m.id in t {
        UpdateKeepsAccepted(t, config, m);
      }
    case SetEnabled(id, enabled, now) =>
      if id in t && Admits(t, WithEnabled(t[id], enabled, now)) {
        EnableKeepsAccepted(t, config, id, enabled, now);
      }
    case Delete(id) =>
  }

  // So does every run: from an empty table on, any two rows pass the check, which keeps even the
  // targets of one-to-one rows apart that are switched off.
  lemma {:induction false} SqlRunKeepsAccepted(config: EdgeConfig, t: Table, ops: seq<StoreOp>)
    requires Keyed(t) && TableAccepts(t, config)
    ensures var end := SqlRun(Some(config), t, ops).0;
            && Keyed(end) && TableAccepts(end, config)
            && (Exclusive(t) ==> Exclusive(end))
            && (Exclusive(t) ==>
                  forall a, b :: a in end && b in end && a != b && end[a].mode == end[b].mode == OneToOneSnat ==>
                    end[a].targetIp != end[b].targetIp)
    decreases |ops|
  {
    hide SqlExec, TableAccepts;
    if ops == [] {
      assert forall a, b :: a in t && b in t && RowCheck(t[a], t[b]).Pass? && t[a].mode == t[b].mode == OneToOneSnat ==>
          t[a].targetIp != t[b].targetIp;
    } else {
      SqlExecKeepsAccepted(config, t, ops[0]);
      SqlRunKeepsAccepted(config, SqlExec(Some(config), t, ops[0]).0, ops[1..]);
    }
  }

  lemma HealthIrrelevantToCheck(
    x: Mapping, y: Mapping, status: Status, health: Option<string>, error: Option<string>, now: Time)
    ensures RowCheck(WithHealth(x, status, health, error, now), y) == RowCheck(x, y)
    ensures RowCheck(y, WithHealth(x, status, health, error, now)) == RowCheck(y, x)
  {
  }

  lemma HealthKeepsExclusive(
    t: Table, id: string, status: Status, health: Option<string>, error: Option<string>, now: Time)
    requires Exclusive(t)
    ensures Exclusive(HealthStatement(t, id, status, health, error, now))
  {
    hide RowCheck, WithHealth;
    if id in t {
      forall other | other in t && other != id
        ensures RowCheck(WithHealth(t[id], status, health, error, now), t[other]).Pass?
        ensures RowCheck(t[other], WithHealth(t[id], status, health, error, now)).Pass?
      {
        HealthIrrelevantToCheck(t[id], t[other], status, health, error, now);
      }
    }
  }

  lemma HealthKeepsAccepted(
    t: Table, config: EdgeConfig, id: string, status: Status, health: Option<string>, error: Option<string>, now: Time)
    requires Keyed(t) && TableAccepts(t, config)
    ensures Keyed(HealthStatement(t, id, status, health, error, now))
    ensures TableAccepts(HealthStatement(t, id, status, health, error, now), config)
    ensures Exclusive(t) ==> Exclusive(HealthStatement(t, id, status, health, error, now))
  {
    hide Exclusive, ValidateMapping;
    if Exclusive(t) {
      HealthKeepsExclusive(t, id, status, health, error, now);
    }
    if id in t {
      var row := WithHealth(t[id], status, health, error, now);
      HealthIrrelevantToValidity(t[id], status, health, error, now, config);
      forall other | other in t && other != row.id
        ensures !Clash(t[other], row)
      {
        assert !Clash(t[other], t[id]);
      }
      WriteKeepsAccepted(t, config, row);
    }
  }

  // The row without what a health check writes.
  function Quiet(m: Mapping): Mapping {
    m.(status := Pending, lastError := None, healthStatus := None, lastCheckedAt := None, updatedAt := 0)
  }

  // The same rows up to what health checks write.
  ghost predicate Calm(t: Table, u: Table) {
    t.Keys == u.Keys && forall id :: id in t ==> Quiet(t[id]) == Quiet(u[id])
  }

  // ---- Listing the rows ----

  ghost predicate Sorted(ms: seq<Mapping>) {
    forall i, j :: 0 <= i < j < |ms| ==> Before(ms[i], ms[j])
  }

  // The rows of the table, each once, by creation time and then id.
  ghost predicate IsListing(t: Table, ms: seq<Mapping>) {
    && Sorted(ms)
    && (forall m :: m in ms ==> m.id in t && t[m.id] == m)
    && (forall id :: id in t ==> t[id] in ms)
  }

  // Older rows come first, and of two rows of one age the one with the smaller id.
  lemma OldestFirst(t: Table, ms: seq<Mapping>, i: nat, j: nat)
    requires IsListing(t, ms) && i < j < |ms|
    ensures ms[i].createdAt <= ms[j].createdAt
    ensures ms[i].createdAt == ms[j].createdAt ==> Text.Precedes(ms[i].id, ms[j].id)
  {
    Text.LessExact(ms[i].id, ms[j].id);
  }

  lemma BeforeOrder(x: Mapping, y: Mapping, z: Mapping)
    ensures !(Before(x, y) && Before(y, x)) && !Before(x, x)
    ensures Before(x, y) && Before(y, z) ==> Before(x, z)
    ensures x.id != y.id ==> Before(x, y) || Before(y, x)
  {
    Text.LessTotal(x.id, y.id);
    Text.LessTotal(x.id, x.id);
    if Text.Less(x.id, y.id) && Text.Less(y.id, z.id) {
      Text.LessTransitive(x.id, y.id, z.id);
    }
  }

  function InsertSorted(m: Mapping, ms: seq<Mapping>): (r: seq<Mapping>)
    ensures forall x :: x in r <==> x == m || x in ms
  {
    if ms == [] then [m]
    else if Before(m, ms[0]) then [m] + ms
    else [ms[0]] + InsertSorted(m, ms[1..])
  }

  lemma {:induction false} InsertSortedSorted(m: Mapping, ms: seq<Mapping>)
    requires Sorted(ms) && forall x :: x in ms ==> x.id != m.id
    ensures Sorted(InsertSorted(m, ms))
  {
    if ms != [] {
      var rest := ms[1..];
      BeforeOrder(m, ms[0], ms[0]);
      if Before(m, ms[0]) {
        forall x | x in rest
          ensures Before(m, x)
        {
          BeforeOrder(m, ms[0], x);
        }
      } else {
        assert ms[0].id != m.id;
        BeforeOrder(ms[0], m, m);
        InsertSortedSorted(m, rest);
        assert forall x :: x in rest ==> Before(ms[0], x);
      }
    }
  }

  lemma {:induction false} ListingUnique(t: Table, ms: seq<Mapping>, other: seq<Mapping>)
    requires IsListing(t, ms) && IsListing(t, other)
    ensures ms == other
  {
    SortedUnique(ms, other);
  }

  lemma NonEmptyHasMember(ms: seq<Mapping>)
    ensures ms != [] ==> exists m :: m in ms
  {
    if ms != [] {
      assert ms[0] in ms;
    }
  }

  lemma {:induction false} SortedUnique(ms: seq<Mapping>, other: seq<Mapping>)
    requires Sorted(ms) && Sorted(other)
    requires forall m :: m in ms <==> m in other
    ensures ms == other
  {
    NonEmptyHasMember(ms);
    NonEmptyHasMember(other);
    if ms != [] {
      assert ms[0] in other && other[0] in ms;
      BeforeOrder(ms[0], other[0], ms[0]);
      assert ms[0] == other[0];
      var x, y := ms[1..], other[1..];
      forall m
        ensures m in x <==> m in y
      {
        BeforeOrder(m, m, m);
        assert m in x ==> m in ms && Before(ms[0], m);
        assert m in y ==> m in other && Before(other[0], m);
        assert ms == [ms[0]] + x && other == [ms[0]] + y;
      }
      SortedUnique(x, y);
    }
  }

  ghost function SomeId(t: Table): (id: string)
    requires t != map[]
    ensures id in t
  {
    var id :| id in t; id
  }

  lemma FewerRows(t: Table, id: string)
    requires id in t
    ensures |t - {id}| < |t|
  {
  }

  ghost function Listing(t: Table): seq<Mapping>
    decreases |t|
  {
    if t == map[] then []
    else
      var id := SomeId(t);
      FewerRows(t, id);
      InsertSorted(t[id], Listing(t - {id}))
  }

  lemma PutBack(t: Table, ids: set<string>, id: string)
    requires id in t && id in ids
    ensures (t - ids)[id := t[id]] == t - (ids - {id})
    ensures (t - ids)[id := t[id]] - {id} == t - ids
  {
  }

  lemma InsertIntoListing(t: Table, id: string, ms: seq<Mapping>)
    requires Keyed(t) && id in t && IsListing(t - {id}, ms)
    ensures IsListing(t, InsertSorted(t[id], ms))
  {
    var rest := t - {id};
    forall m | m in ms
      ensures m.id != t[id].id && m.id in t && t[m.id] == m
    {
      assert m.id in rest && rest[m.id] == m;
    }
    InsertSortedSorted(t[id], ms);
    forall other | other in t
      ensures t[other] in InsertSorted(t[id], ms)
    {
      if other != id {
        assert other in rest && rest[other] in ms;
      }
    }
  }

  lemma {:induction false} ListingIsListing(t: Table)
    requires Keyed(t)
    ensures IsListing(t, Listing(t))
    decreases |t|
  {
    if t != map[] {
      var id := SomeId(t);
      FewerRows(t, id);
      ListingIsListing(t - {id});
      InsertIntoListing(t, id, Listing(t - {id}));
    }
  }

  lemma NothingListed(t: Table)
    requires t == map[]
    ensures IsListing(t, [])
  {
  }

  method SortRows(t: Table) returns (ms: seq<Mapping>)
    requires Keyed(t)
    ensures ms == Listing(t)
  {
    hide IsListing, Before;
    ms := [];
    var ids := t.Keys;
    assert t - ids == map[];
    NothingListed(t - ids);
    while ids != {}
      invariant ids <= t.Keys
      invariant IsListing(t - ids, ms)
      decreases ids
    {
      var id :| id in ids;
      PutBack(t, ids, id);
      InsertIntoListing((t - ids)[id := t[id]], id, ms);
      ms := InsertSorted(t[id], ms);
      ids := ids - {id};
    }
    assert t - ids == t;
    ListingIsListing(t);
    ListingUnique(t, ms, Listing(t));
  }

  // ---- What health reports leave alone ----

  lemma QuietIrrelevantToValidity(m: Mapping, config: EdgeConfig)
    ensures ValidateMapping(Quiet(m), config) == ValidateMapping(m, config)
  {
    assert ValidateMode(Quiet(m)) == ValidateMode(m);
  }

  lemma QuietIrrelevantToClash(x: Mapping, y: Mapping)
    ensures Clash(Quiet(x), Quiet(y)) == Clash(x, y)
    ensures Before(Quiet(x), Quiet(y)) == Before(x, y)
  {
  }

  lemma SameQuiet(m: Mapping, n: Mapping)
    requires Quiet(m) == Quiet(n)
    ensures m.id == n.id && m.enabled == n.enabled && m.backend == n.backend && m.edgeIp == n.edgeIp
  {
    assert m.id == Quiet(m).id && m.enabled == Quiet(m).enabled;
    assert m.backend == Quiet(m).backend && m.edgeIp == Quiet(m).edgeIp;
  }

  lemma CalmKeepsAccepted(t: Table, u: Table, config: EdgeConfig)
    requires Keyed(t) && TableAccepts(t, config) && Calm(t, u)
    ensures Keyed(u) && TableAccepts(u, config)
  {
    hide ValidateMapping, Clash, Quiet;
    forall id | id in u
      ensures u[id].id == id && ValidMapping(u[id], config)
    {
      SameQuiet(t[id], u[id]);
      QuietIrrelevantToValidity(t[id], config);
      QuietIrrelevantToValidity(u[id], config);
    }
    forall a, b | a in u && b in u && a != b
      ensures !Clash(u[a], u[b])
    {
      QuietIrrelevantToClash(t[a], t[b]);
      QuietIrrelevantToClash(u[a], u[b]);
    }
  }

  // The rows stand in the same order.
  lemma CalmListing(t: Table, u: Table)
    requires Keyed(t) && Keyed(u) && Calm(t, u)
    ensures |Listing(u)| == |Listing(t)|
    ensures forall i :: 0 <= i < |Listing(t)| ==> Quiet(Listing(u)[i]) == Quiet(Listing(t)[i])
  {
    hide Before, Quiet, Listing;
    ListingIsListing(t);
    ListingIsListing(u);
    var ms := Listing(t);
    var ns := seq(|ms|, i requires 0 <= i < |ms| => assert ms[i] in ms; u[ms[i].id]);
    forall i | 0 <= i < |ms|
      ensures ms[i] in ms && ns[i].id == ms[i].id && Quiet(ns[i]) == Quiet(ms[i])
    {
      assert ms[i] in ms;
    }
    forall i, j | 0 <= i < j < |ms|
      ensures Before(ns[i], ns[j])
    {
      QuietIrrelevantToClash(ms[i], ms[j]);
      QuietIrrelevantToClash(ns[i], ns[j]);
    }
    forall id | id in u
      ensures u[id] in ns
    {
      var i :| 0 <= i < |ms| && ms[i] == t[id];
      assert ns[i] == u[id];
    }
    ListingUnique(u, ns, Listing(u));
  }

  lemma AcceptableTableLists(t: Table, ms: seq<Mapping>, config: EdgeConfig)
    requires Keyed(t) && IsListing(t, ms) && TableAccepts(t, config)
    ensures Accepts(ms, config)
  {
    hide ValidateMapping, Clash, Before;
    forall i | 0 <= i < |ms|
      ensures ValidMapping(ms[i], config)
    {
      assert ms[i] in ms;
    }
    forall i, j | 0 <= i < j < |ms|
      ensures !Clash(ms[i], ms[j])
    {
      BeforeOrder(ms[i], ms[j], ms[i]);
      assert ms[i] in ms && ms[j] in ms;
      assert ms[i].id != ms[j].id;
    }
  }

  lemma AcceptedListTables(t: Table, ms: seq<Mapping>, config: EdgeConfig)
    requires Keyed(t) && IsListing(t, ms) && Accepts(ms, config)
    ensures TableAccepts(t, config)
  {
    hide ValidateMapping, Clash, Before;
    forall id | id in t
      ensures ValidMapping(t[id], config)
    {
      assert t[id] in ms;
    }
    forall a, b | a in t && b in t && a != b
      ensures !Clash(t[a], t[b])
    {
      var i :| 0 <= i < |ms| && ms[i] == t[a];
      var j :| 0 <= j < |ms| && ms[j] == t[b];
      ClashSymmetric(t[a], t[b]);
      assert i < j || j < i;
    }
  }

  // Validation accepts the listing of an acceptable table, and of no other.
  lemma ListingAccepted(t: Table, ms: seq<Mapping>, config: EdgeConfig)
    requires Keyed(t) && IsListing(t, ms)
    ensures Accepts(ms, config) <==> TableAccepts(t, config)
  {
    hide Accepts, TableAccepts;
    if TableAccepts(t, config) {
      AcceptableTableLists(t, ms, config);
    }
    if Accepts(ms, config) {
      AcceptedListTables(t, ms, config);
    }
  }
}
