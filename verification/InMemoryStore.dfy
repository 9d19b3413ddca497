// The in-memory store, and how far the SQL store agrees with it.
module InMemoryStores {
  import opened Wrappers
  import opened Mappings
  import opened Validation
  import opened RowCodec
  import opened Tables
  import opened Site

  // The table after an operation of the in-memory store, and whether it succeeded. Enabling a row
  // checks nothing.
  ghost function MemExec(config: Option<EdgeConfig>, t: Table, op: StoreOp): (Table, bool) {
    match op
    case Insert(m) => if m.id !in t && Writable(config, t, m) then (t[m.id := m], true) else (t, false)
    case Update(m, now) =>
      var row := m.(updatedAt := now);
      if m.id in t && Writable(config, t, row) then (t[m.id := row], true) else (t, false)
    case SetEnabled(id, enabled, now) =>
      if id in t then (t[id := WithEnabled(t[id], enabled, now)], true) else (t, false)
    case Delete(id) => (t - {id}, id in t)
  }

  // An insert adds its row as it is, an update replaces the row but for its update time, switching
  // sets the switch, the status that goes with it and the time, and a delete takes the row out. What
  // fails changes nothing.
  lemma MemSetsTheRow(config: Option<EdgeConfig>, t: Table, op: StoreOp)
    requires Keyed(t)
    ensures var (t', ok) := MemExec(config, t, op);
            && Keyed(t') && (!ok ==> t' == t)
            && (ok ==>
                  match op
                  case Insert(m) => m.id !in t && t'.Keys == t.Keys + {m.id} && t'[m.id] == m
                                    && forall id :: id in t ==> t'[id] == t[id]
                  case Update(m, now) => m.id in t && OnlyRowChanged(t, t', m.id)
                                         && t'[m.id].updatedAt == now && t'[m.id].(updatedAt := m.updatedAt) == m
                  case SetEnabled(id, enabled, now) =>
                    && id in t && OnlyRowChanged(t, t', id)
                    && t'[id].enabled == enabled && t'[id].status == (if enabled then Pending else Status.Disabled)
                    && t'[id].updatedAt == now
                    && SameTerms(t[id], t'[id]) && SameHealth(t[id], t'[id]) && SameAssigned(t[id], t'[id])
                  case Delete(id) => id in t && t'.Keys == t.Keys - {id}
                                     && forall other :: other in t' ==> t'[other] == t[other])
  {
    hide Writable;
  }

  // ---- Both stores with their configuration ----

  datatype Database = Database(config: Option<EdgeConfig>, table: Table)

  datatype Request = Configure(config: EdgeConfig) | Rows(op: StoreOp)

  // The SQL store looks at a new configuration alone, the in-memory store also at the rows.
  ghost function SqlStep(d: Database, r: Request): (Database, bool) {
    match r
    case Configure(config) =>
      if ValidateEdgeConfig(config).Pass? then (d.(config := Some(config)), true) else (d, false)
    case Rows(op) => var (t, ok) := SqlExec(d.config, d.table, op); (d.(table := t), ok)
  }

  ghost function MemStep(d: Database, r: Request): (Database, bool) {
    match r
    case Configure(config) =>
      if ValidateEdgeConfig(config).Pass? && forall id :: id in d.table ==> ValidMapping(d.table[id], config) then
        (d.(config := Some(config)), true)
      else (d, false)
    case Rows(op) => var (t, ok) := MemExec(d.config, d.table, op); (d.(table := t), ok)
  }

  ghost function SqlHistory(d: Database, rs: seq<Request>): (Database, seq<bool>)
    decreases |rs|
  {
    if rs == [] then (d, [])
    else
      var (d', ok) := SqlStep(d, rs[0]);
      var (end, oks) := SqlHistory(d', rs[1..]);
      (end, [ok] + oks)
  }

  ghost function MemHistory(d: Database, rs: seq<Request>): (Database, seq<bool>)
    decreases |rs|
  {
    if rs == [] then (d, [])
    else
      var (d', ok) := MemStep(d, rs[0]);
      var (end, oks) := MemHistory(d', rs[1..]);
      (end, [ok] + oks)
  }

  class InMemoryStore {
    var config: Option<EdgeConfig>
    var mappings: Table

    ghost predicate Valid()
      reads this
    {
      Keyed(mappings)
    }

    constructor ()
      ensures Valid() && mappings == map[] && config == None
    {
      config, mappings := None, map[];
    }

    // A new configuration must keep every stored row valid.
    method SetEdgeConfig(c: EdgeConfig) returns (r: Outcome<Error>)
      modifies this`config
      ensures r.Pass? <==> ValidateEdgeConfig(c).Pass? && forall id :: id in mappings ==> ValidMapping(mappings[id], c)
      ensures config == if r.Pass? then Some(c) else old(config)
      ensures (Database(config, mappings), r.Pass?) == MemStep(old(Database(config, mappings)), Configure(c))
    {
      r := ValidateEdgeConfig(c);
      if r.Fail? {
        return;
      }
      var ids := mappings.Keys;
      while ids != {}
        invariant ids <= mappings.Keys
        invariant forall id :: id in mappings && id !in ids ==> ValidMapping(mappings[id], c)
        decreases ids
      {
        var id :| id in ids;
        r := ValidateMapping(mappings[id], c);
        if r.Fail? {
          return;
        }
        ids := ids - {id};
      }
      config, r := Some(c), Pass;
    }

    method ValidateForWrite(m: Mapping) returns (r: Outcome<Error>)
      requires Valid()
      ensures r.Pass? <==> Writable(config, mappings, m)
    {
      if config.None? {
        return Fail(Store(ConfigMissing));
      }
      r := ValidateMapping(m, config.value);
      if r.Fail? {
        return;
      }
      var ids := mappings.Keys;
      while ids != {}
        invariant ids <= mappings.Keys
        invariant forall id :: id in mappings && id !in ids && id != m.id ==> RowCheck(mappings[id], m).Pass?
        decreases ids
      {
        var id :| id in ids;
        if mappings[id].id != m.id {
          r := RowCheck(mappings[id], m);
          if r.Fail? {
            return;
          }
        }
        ids := ids - {id};
      }
      r := Pass;
    }

    method InsertMapping(m: Mapping) returns (r: Outcome<Error>)
      requires Valid()
      modifies this`mappings
      ensures Valid() && (mappings, r.Pass?) == MemExec(config, old(mappings), Insert(m))
      ensures m.id in old(mappings) ==> r == Fail(DuplicateMappingId(m.id))
    {
      if m.id in mappings {
        return Fail(DuplicateMappingId(m.id));
      }
      r := ValidateForWrite(m);
      if r.Pass? {
        mappings := mappings[m.id := m];
      }
    }

    method GetMapping(id: string) returns (r: Result<Mapping, Error>)
      ensures r == if id in mappings then Success(mappings[id]) else Failure(NotFound(id))
    {
      r := if id in mappings then Success(mappings[id]) else Failure(NotFound(id));
    }

    method UpdateMapping(m: Mapping, now: Time) returns (r: Outcome<Error>)
      requires Valid()
      modifies this`mappings
      ensures Valid() && (mappings, r.Pass?) == MemExec(config, old(mappings), Update(m, now))
      ensures m.id !in old(mappings) ==> r == Fail(NotFound(m.id))
    {
      if m.id !in mappings {
        return Fail(NotFound(m.id));
      }
      var row := m.(updatedAt := now);
      r := ValidateForWrite(row);
      if r.Pass? {
        mappings := mappings[m.id := row];
      }
    }

    method DeleteMapping(id: string) returns (r: Result<Mapping, Error>)
      requires Valid()
      modifies this`mappings
      ensures Valid() && (mappings, r.Success?) == MemExec(config, old(mappings), Delete(id))
      ensures r.Success? ==> r.value == old(mappings)[id]
    {
      r := GetMapping(id);
      mappings := mappings - {id};
    }

    method SetMappingEnabled(id: string, enabled: bool, now: Time) returns (r: Outcome<Error>)
      requires Valid()
      modifies this`mappings
      ensures Valid() && (mappings, r.Pass?) == MemExec(config, old(mappings), SetEnabled(id, enabled, now))
    {
      if id !in mappings {
        return Fail(NotFound(id));
      }
      mappings := mappings[id := WithEnabled(mappings[id], enabled, now)];
      r := Pass;
    }
  }

  // ---- Agreement ----

  function Timeless(m: Mapping): Mapping {
    m.(createdAt := 0, updatedAt := 0)
  }

  // The same rows up to their time stamps.
  ghost predicate Same(t: Table, u: Table) {
    t.Keys == u.Keys && forall id :: id in t ==> Timeless(t[id]) == Timeless(u[id])
  }

  // The database refuses to switch this row on.
  ghost predicate RefusedEnable(t: Table, op: StoreOp) {
    op.SetEnabled? && op.enabled && op.id in t && !Admits(t, WithEnabled(t[op.id], true, op.now))
  }

  lemma TimelessWritable(config: Option<EdgeConfig>, t: Table, u: Table, m: Mapping, row: Mapping)
    requires Same(t, u) && Timeless(m) == Timeless(row)
    ensures Writable(config, t, m) <==> Writable(config, u, row)
  {
  }

  lemma InsertAgrees(config: Option<EdgeConfig>, t: Table, u: Table, m: Mapping)
    requires Same(t, u)
    ensures SqlExec(config, t, Insert(m)).1 == MemExec(config, u, Insert(m)).1
    ensures Same(SqlExec(config, t, Insert(m)).0, MemExec(config, u, Insert(m)).0)
  {
    hide Blocks, Encode, ValidateMapping, RowCheck;
    TimelessWritable(config, t, u, m, m);
    if Writable(config, t, m) {
      ValidPortForwardHasPort(m, config.value);
      CheckedRowIsAdmitted(t, m);
    }
  }

  lemma UpdateAgrees(config: Option<EdgeConfig>, t: Table, u: Table, m: Mapping, now: Time)
    requires Same(t, u)
    ensures SqlExec(config, t, Update(m, now)).1 == MemExec(config, u, Update(m, now)).1
    ensures Same(SqlExec(config, t, Update(m, now)).0, MemExec(config, u, Update(m, now)).0)
  {
    hide Blocks, Encode, ValidateMapping, RowCheck;
    TimelessWritable(config, t, u, m, m.(updatedAt := now));
    if Writable(config, t, m) && m.id in t {
      var row := m.(createdAt := t[m.id].createdAt);
      ValidPortForwardHasPort(m, config.value);
      CreationIrrelevantToCheck(t, m, t[m.id].createdAt);
      CheckedRowIsAdmitted(t, row);
    }
  }

  lemma EnableAgrees(config: Option<EdgeConfig>, t: Table, u: Table, id: string, enabled: bool, now: Time)
    requires Same(t, u)
    ensures var op := SetEnabled(id, enabled, now);
            && (SqlExec(config, t, op).1 == MemExec(config, u, op).1 <==> !RefusedEnable(t, op))
            && (!RefusedEnable(t, op) ==> Same(SqlExec(config, t, op).0, MemExec(config, u, op).0))
  {
    hide Blocks, Encode;
    if id in t {
      forall other
        ensures !enabled ==> !Blocks(Encode(WithEnabled(t[id], enabled, now)), other)
      {
        OffRowIsNotBlocked(WithEnabled(t[id], enabled, now), other);
      }
      assert Timeless(t[id]) == Timeless(u[id]);
    }
  }

  lemma OperationAgrees(config: Option<EdgeConfig>, t: Table, u: Table, op: StoreOp)
    requires Same(t, u)
    ensures SqlExec(config, t, op).1 == MemExec(config, u, op).1 <==> !RefusedEnable(t, op)
    ensures !RefusedEnable(t, op) ==> Same(SqlExec(config, t, op).0, MemExec(config, u, op).0)
  {
    match op
    case Insert(m) => InsertAgrees(config, t, u, m);
    case Update(m, now) => UpdateAgrees(config, t, u, m, now);
    case SetEnabled(id, enabled, now) => EnableAgrees(config, t, u, id, enabled, now);
    case Delete(id) =>
  }

  // The configuration is valid by itself, and some stored row is not valid under it.
  ghost predicate FailsARow(t: Table, r: Request) {
    && r.Configure? && ValidateEdgeConfig(r.config).Pass?
    && exists id :: id in t && !ValidMapping(t[id], r.config)
  }

  // What the stores part on: an enable that the database refuses, or a configuration that fails a
  // stored row.
  ghost predicate Parts(t: Table, r: Request) {
    (r.Rows? && RefusedEnable(t, r.op)) || FailsARow(t, r)
  }

  ghost predicate SameDatabase(d: Database, e: Database) {
    d.config == e.config && Same(d.table, e.table)
  }

  lemma SameRowsSameValidity(t: Table, u: Table, config: EdgeConfig)
    requires Same(t, u)
    ensures forall id :: id in t ==> ValidMapping(t[id], config) == ValidMapping(u[id], config)
  {
    forall id | id in t
      ensures ValidMapping(t[id], config) == ValidMapping(u[id], config)
    {
      TimesIrrelevantToValidity(t[id], 0, 0, config);
      TimesIrrelevantToValidity(u[id], 0, 0, config);
      assert Timeless(t[id]) == Timeless(u[id]);
    }
  }

  // From the same configuration and rows, one request has the same outcome in both stores exactly
  // when the stores do not part on it, and then configuration and rows stay the same.
  lemma StepAgrees(d: Database, e: Database, r: Request)
    requires SameDatabase(d, e)
    ensures SqlStep(d, r).1 == MemStep(e, r).1 <==> !Parts(d.table, r)
    ensures !Parts(d.table, r) ==> SameDatabase(SqlStep(d, r).0, MemStep(e, r).0)
  {
    hide SqlExec, MemExec, ValidateMapping, ValidateEdgeConfig, RefusedEnable;
    match r
    case Configure(config) => SameRowsSameValidity(d.table, e.table, config);
    case Rows(op) => OperationAgrees(d.config, d.table, e.table, op);
  }

  ghost predicate NeverParts(d: Database, rs: seq<Request>)
    decreases |rs|
  {
    rs != [] ==> !Parts(d.table, rs[0]) && NeverParts(SqlStep(d, rs[0]).0, rs[1..])
  }

  // Over a whole run the two stores report the same outcomes exactly when the database never
  // refuses an enable and no new configuration fails a stored row, and then they end with the same
  // configuration and rows.
  lemma {:induction false} StoresAgree(d: Database, e: Database, rs: seq<Request>)
    requires SameDatabase(d, e)
    ensures SqlHistory(d, rs).1 == MemHistory(e, rs).1 <==> NeverParts(d, rs)
    ensures NeverParts(d, rs) ==> SameDatabase(SqlHistory(d, rs).0, MemHistory(e, rs).0)
    decreases |rs|
  {
    hide SqlStep, MemStep, Parts, SameDatabase;
    if rs != [] {
      StepAgrees(d, e, rs[0]);
      var (d', ok) := SqlStep(d, rs[0]);
      var (e', ok') := MemStep(e, rs[0]);
      var oks, oks' := SqlHistory(d', rs[1..]).1, MemHistory(e', rs[1..]).1;
      assert SqlHistory(d, rs).1 == [ok] + oks && MemHistory(e, rs).1 == [ok'] + oks';
      assert [ok] + oks == [ok'] + oks' <==> ok == ok' && oks == oks' by {
        assert ([ok] + oks)[0] == ok && ([ok'] + oks')[0] == ok';
        assert ([ok] + oks)[1..] == oks && ([ok'] + oks')[1..] == oks';
      }
      if !Parts(d.table, rs[0]) {
        StoresAgree(d', e', rs[1..]);
      }
    }
  }

  // When the rows are valid, the database refuses an enable exactly when an enabled row would clash.
  lemma RefusalMeansClash(t: Table, config: EdgeConfig, op: StoreOp)
    requires Keyed(t) && op.SetEnabled? && op.enabled && op.id in t && ValidMapping(t[op.id], config)
    ensures RefusedEnable(t, op) <==>
            exists id :: id in t && id != op.id && t[id].enabled && Clash(t[id], WithEnabled(t[op.id], true, op.now))
  {
    var row := WithEnabled(t[op.id], true, op.now);
    ValidPortForwardHasPort(t[op.id], config);
    forall id | id in t && id != op.id
      ensures Blocks(Encode(row), Encode(t[id])) <==> t[id].enabled && Clash(t[id], row)
    {
      GuardsExact(row, t[id]);
    }
  }

  // ---- Two runs on which the stores part ----

  // Two rows of one edge address: the first is switched off, the second comes in, and the first is
  // switched on again, which the database refuses and the memory does not.
  function PartingRows(config: EdgeConfig, a: Mapping, b: Mapping): seq<Request> {
    [Configure(config), Rows(Insert(a)), Rows(SetEnabled(a.id, false, 0)), Rows(Insert(b)),
     Rows(SetEnabled(a.id, true, 0))]
  }

  lemma {:induction false} OutcomesChain(sql: bool, ds: seq<Database>, rs: seq<Request>, oks: seq<bool>)
    requires |ds| == |rs| + 1 && |oks| == |rs|
    requires forall i :: 0 <= i < |rs| ==>
               (if sql then SqlStep(ds[i], rs[i]) else MemStep(ds[i], rs[i])) == (ds[i + 1], oks[i])
    ensures (if sql then SqlHistory(ds[0], rs) else MemHistory(ds[0], rs)).1 == oks
    decreases |rs|
  {
    hide SqlStep, MemStep;
    if rs != [] {
      OutcomesChain(sql, ds[1..], rs[1..], oks[1..]);
    }
  }

  const BLANK := Database(None, map[])

  lemma SqlRefusesTheLast(config: EdgeConfig, a: Mapping, b: Mapping)
    requires ValidateEdgeConfig(config).Pass? && ValidMapping(a, config) && ValidMapping(b, config) && a.id != b.id
    requires a.enabled && b.enabled && Conflicts(a, b) && a.targetIp != b.targetIp && !SharesPublicIp(a, b)
    ensures SqlHistory(BLANK, PartingRows(config, a, b)).1 == [true, true, true, true, false]
  {
    hide ValidateMapping, ValidateEdgeConfig, Encode, Blocks;
    var off, on := WithEnabled(a, false, 0), WithEnabled(WithEnabled(a, false, 0), true, 0);
    var t1, t2, t3 := map[a.id := a], map[a.id := off], map[a.id := off, b.id := b];
    ValidPortForwardHasPort(a, config);
    ValidPortForwardHasPort(b, config);
    CheckedRowIsAdmitted(map[], a);
    CheckedRowIsAdmitted(t2, b);
    GuardsExact(on, b);
    assert map[][a.id := a] == t1 && t1[a.id := off] == t2 && t2[b.id := b] == t3;
    assert SqlExec(Some(config), map[], Insert(a)) == (t1, true);
    assert SqlExec(Some(config), t1, SetEnabled(a.id, false, 0)) == (t2, true);
    assert SqlExec(Some(config), t2, Insert(b)) == (t3, true);
    assert SqlExec(Some(config), t3, SetEnabled(a.id, true, 0)) == (t3, false) by {
      assert t3[a.id] == off && t3[b.id] == b;
    }
    var with := Some(config);
    OutcomesChain(true, [BLANK, Database(with, map[]), Database(with, t1), Database(with, t2), Database(with, t3),
                         Database(with, t3)],
                  PartingRows(config, a, b), [true, true, true, true, false]);
  }

  lemma MemoryTakesAll(config: EdgeConfig, a: Mapping, b: Mapping)
    requires ValidateEdgeConfig(config).Pass? && ValidMapping(a, config) && ValidMapping(b, config) && a.id != b.id
    requires a.targetIp != b.targetIp && !SharesPublicIp(a, b)
    ensures MemHistory(BLANK, PartingRows(config, a, b)).1 == [true, true, true, true, true]
  {
    hide ValidateMapping, ValidateEdgeConfig;
    var off := WithEnabled(a, false, 0);
    var t1, t2, t3 := map[a.id := a], map[a.id := off], map[a.id := off, b.id := b];
    assert map[][a.id := a] == t1 && t1[a.id := off] == t2 && t2[b.id := b] == t3;
    assert MemExec(Some(config), map[], Insert(a)) == (t1, true);
    assert MemExec(Some(config), t2, Insert(b)) == (t3, true);
    var t4 := MemExec(Some(config), t3, SetEnabled(a.id, true, 0)).0;
    var with := Some(config);
    OutcomesChain(false, [BLANK, Database(with, map[]), Database(with, t1), Database(with, t2), Database(with, t3),
                          Database(with, t4)],
                  PartingRows(config, a, b), [true, true, true, true, true]);
  }

  lemma StoresPartOnAnEnable()
    ensures var rs := PartingRows(SITE, SiteRow("a", 1, 41, None), SiteRow("b", 1, 42, None));
            && SqlHistory(BLANK, rs).1 == [true, true, true, true, false]
            && MemHistory(BLANK, rs).1 == [true, true, true, true, true]
  {
    hide ValidateMapping, ValidateEdgeConfig, SqlHistory, MemHistory;
    var a, b := SiteRow("a", 1, 41, None), SiteRow("b", 1, 42, None);
    SiteIsValid();
    SiteRowIsValid("a", 1, 41, None);
    SiteRowIsValid("b", 1, 42, None);
    SqlRefusesTheLast(SITE, a, b);
    MemoryTakesAll(SITE, a, b);
  }

  // A stored row whose target the new configuration does not hold: SQL stores the configuration,
  // the memory refuses it.
  lemma StoresPartOnAConfiguration()
    ensures var rs := [Configure(SITE), Rows(Insert(SiteRow("a", 1, 41, None))), Configure(MOVED)];
            && SqlHistory(BLANK, rs).1 == [true, true, true]
            && MemHistory(BLANK, rs).1 == [true, true, false]
  {
    hide ValidateMapping, ValidateEdgeConfig, SqlHistory, MemHistory, Encode, Blocks;
    var a := SiteRow("a", 1, 41, None);
    var rs := [Configure(SITE), Rows(Insert(a)), Configure(MOVED)];
    SiteIsValid();
    SiteRowIsValid("a", 1, 41, None);
    SiteRowIsInvalidAfterTheMove("a", 1, 41, None);
    var d0, d1 := Database(Some(SITE), map[]), Database(Some(SITE), map["a" := a]);
    assert map[]["a" := a] == map["a" := a] && d1.table["a"] == a;
    OutcomesChain(true, [BLANK, d0, d1, d1.(config := Some(MOVED))], rs, [true, true, true]);
    OutcomesChain(false, [BLANK, d0, d1, d1], rs, [true, true, false]);
  }
}
