// The SQL store: rows of text columns behind the database's guards.
module SqliteStores {
  import opened Wrappers
  import opened Mappings
  import opened Validation
  import opened RowCodec
  import opened Tables
  import Text

  // The row is the text of some mapping.
  ghost predicate IsEncoding(row: Row) {
    exists m :: Storable(m) && Encode(m) == row
  }

  ghost function Meaning(row: Row): (m: Mapping)
    requires IsEncoding(row)
    ensures Storable(m) && Encode(m) == row
  {
    var m :| Storable(m) && Encode(m) == row; m
  }

  lemma MeaningOfEncoded(m: Mapping)
    requires Storable(m)
    ensures IsEncoding(Encode(m)) && Meaning(Encode(m)) == m
  {
    RowRoundTrip(m);
    RowRoundTrip(Meaning(Encode(m)));
  }

  ghost predicate ValidRows(rows: map<string, Row>) {
    forall id :: id in rows ==> rows[id].id == id && IsEncoding(rows[id])
  }

  ghost function Decoded(rows: map<string, Row>): (t: Table)
    requires ValidRows(rows)
    ensures Keyed(t) && t.Keys == rows.Keys
    ensures forall id :: id in t ==> Storable(t[id]) && Encode(t[id]) == rows[id]
  {
    map id | id in rows :: Meaning(rows[id])
  }

  lemma RowsDecode(rows: map<string, Row>)
    requires ValidRows(rows)
    ensures forall id :: id in rows ==> Decode(rows[id]) == Success(Decoded(rows)[id])
  {
    hide Encode, Decode;
    forall id | id in rows
      ensures Decode(rows[id]) == Success(Decoded(rows)[id])
    {
      RowRoundTrip(Decoded(rows)[id]);
    }
  }

  lemma WriteDecodes(rows: map<string, Row>, m: Mapping)
    requires ValidRows(rows) && Storable(m)
    ensures ValidRows(rows[m.id := Encode(m)])
    ensures Decoded(rows[m.id := Encode(m)]) == Decoded(rows)[m.id := m]
  {
    hide Encode;
    MeaningOfEncoded(m);
    var rows' := rows[m.id := Encode(m)];
    assert Decoded(rows').Keys == Decoded(rows)[m.id := m].Keys;
  }

  lemma DeleteDecodes(rows: map<string, Row>, id: string)
    requires ValidRows(rows)
    ensures ValidRows(rows - {id}) && Decoded(rows - {id}) == DeleteStatement(Decoded(rows), id)
  {
    assert Decoded(rows - {id}).Keys == DeleteStatement(Decoded(rows), id).Keys;
  }

  lemma EncodeChanged(m: Mapping, enabled: bool, created: Time, now: Time)
    ensures Encode(WithEnabled(m, enabled, now))
            == Encode(m).(enabled := if enabled then 1 else 0,
                          status := StatusText(if enabled then Pending else Status.Disabled), updatedAt := now)
    ensures Encode(m.(createdAt := created)) == Encode(m).(createdAt := created)
  {
  }

  method ReadRow(row: Row) returns (m: Mapping)
    requires IsEncoding(row)
    ensures m == Meaning(row)
  {
    RowRoundTrip(Meaning(row));
    m := Decode(row).value;
  }

  class SqliteStore {
    var config: Option<EdgeConfig>
    var rows: map<string, Row>

    ghost predicate Valid()
      reads this
    {
      ValidRows(rows)
    }

    // The table as mappings.
    ghost function Contents(): (t: Table)
      reads this
      requires Valid()
      ensures Keyed(t)
    {
      Decoded(rows)
    }

    constructor ()
      ensures Valid() && Contents() == map[] && config == None
    {
      config, rows := None, map[];
    }

    // A new configuration is not checked against the stored rows.
    method SetEdgeConfig(c: EdgeConfig) returns (r: Outcome<Error>)
      modifies this`config
      ensures r == ValidateEdgeConfig(c)
      ensures config == if r.Pass? then Some(c) else old(config)
    {
      r := ValidateEdgeConfig(c);
      if r.Pass? {
        config := Some(c);
      }
    }

    method GetMapping(id: string) returns (r: Result<Mapping, Error>)
      requires Valid()
      ensures r == if id in Contents() then Success(Contents()[id]) else Failure(NotFound(id))
    {
      if id in rows {
        var m := ReadRow(rows[id]);
        r := Success(m);
      } else {
        r := Failure(NotFound(id));
      }
    }

    method ListMappings() returns (ms: seq<Mapping>)
      requires Valid()
      ensures IsListing(Contents(), ms)
      ensures forall i, j :: 0 <= i < j < |ms| ==>
                && ms[i].createdAt <= ms[j].createdAt
                && (ms[i].createdAt == ms[j].createdAt ==> Text.Precedes(ms[i].id, ms[j].id))
    {
      hide Encode, Decode, IsListing, Listing, Text.Precedes;
      RowsDecode(rows);
      var t := map id | id in rows :: Decode(rows[id]).value;
      assert t == Contents();
      ms := SortRows(t);
      ListingIsListing(t);
      forall i, j | 0 <= i < j < |ms|
        ensures ms[i].createdAt <= ms[j].createdAt
        ensures ms[i].createdAt == ms[j].createdAt ==> Text.Precedes(ms[i].id, ms[j].id)
      {
        OldestFirst(t, ms, i, j);
      }
    }

    // Some row with another id fails the application's check, and no other error is reported.
    method RejectDuplicates(m: Mapping) returns (r: Outcome<Error>)
      requires Valid()
      ensures r.Pass? <==> DuplicateFree(Contents(), m)
      ensures r.Fail? ==> exists id :: id in Contents() && id != m.id && RowCheck(Contents()[id], m) == r
    {
      var ids := rows.Keys - {m.id};
      ghost var t := Contents();
      while ids != {}
        invariant ids <= rows.Keys - {m.id}
        invariant forall id :: id in t && id != m.id && id !in ids ==> RowCheck(t[id], m).Pass?
        decreases ids
      {
        var id :| id in ids;
        var existing := ReadRow(rows[id]);
        r := RowCheck(existing, m);
        if r.Fail? {
          assert RowCheck(t[id], m) == r;
          return;
        }
        ids := ids - {id};
      }
      r := Pass;
    }

    // The guards of the database, for a row about to be written.
    method Admitted(row: Row, ghost m: Mapping) returns (ok: bool)
      requires Valid() && row == Encode(m)
      ensures ok <==> Admits(Contents(), m)
    {
      ok := forall id :: id in rows && id != row.id ==> !Blocks(row, rows[id]);
      assert forall id :: id in rows ==> Encode(Contents()[id]) == rows[id];
    }

    // Why a write was refused: no configuration, an invalid mapping, a clashing row, or the database.
    ghost predicate Refusal(m: Mapping, e: Error)
      reads this
      requires Valid()
    {
      || (config.None? && e == Store(ConfigMissing))
      || (config.Some? && ValidateMapping(m, config.value) == Fail(e))
      || (exists id :: id in Contents() && id != m.id && RowCheck(Contents()[id], m) == Fail(e))
      || (Writable(config, Contents(), m) && e == Store(StatementFailed))
    }

    method CheckWrite(m: Mapping) returns (r: Outcome<Error>)
      requires Valid()
      ensures r.Pass? <==> Writable(config, Contents(), m)
      ensures r.Fail? ==> Refusal(m, r.error)
    {
      if config.None? {
        return Fail(Store(ConfigMissing));
      }
      r := ValidateMapping(m, config.value);
      if r.Pass? {
        r := RejectDuplicates(m);
      }
    }

    // One guarded statement: the row is written unless the database refuses it.
    method WriteRow(row: Row, ghost m: Mapping) returns (ok: bool)
      requires Valid() && Storable(m) && row == Encode(m)
      modifies this`rows
      ensures Valid()
      ensures ok <==> Admits(old(Contents()), m)
      ensures Contents() == if ok then old(Contents())[m.id := m] else old(Contents())
    {
      hide Encode, Blocks;
      ok := Admitted(row, m);
      if ok {
        WriteDecodes(rows, m);
        rows := rows[row.id := row];
      }
    }

    method InsertMapping(m: Mapping) returns (r: Outcome<Error>)
      requires Valid() && WellFormedId(m.id)
      modifies this`rows
      ensures Valid()
      ensures (Contents(), r.Pass?) == SqlExec(config, old(Contents()), Insert(m))
      ensures r.Pass? ==> Contents() == old(Contents())[m.id := m]
      ensures r.Fail? ==> old(Refusal(m, r.error))
    {
      hide Encode, Decode, ValidateMapping, Blocks, RowCheck, Admits;
      r := CheckWrite(m);
      if r.Fail? {
        return;
      }
      ValidIsStorable(m, config.value);
      if m.id in rows {
        return Fail(Store(StatementFailed));
      }
      var written := WriteRow(Encode(m), m);
      if !written {
        return Fail(Store(StatementFailed));
      }
    }

    method UpdateMapping(m: Mapping, now: Time) returns (r: Outcome<Error>)
      requires Valid() && WellFormedId(m.id)
      modifies this`rows
      ensures Valid()
      ensures (Contents(), r.Pass?) == SqlExec(config, old(Contents()), Update(m, now))
      ensures r.Fail? ==> old(Refusal(m, r.error)) || (m.id !in old(Contents()) && r.error == NotFound(m.id))
    {
      hide ValidateMapping, Blocks, RowCheck, Encode;
      r := CheckWrite(m);
      if r.Fail? {
        return;
      }
      ValidIsStorable(m, config.value);
      if m.id !in rows {
        return Fail(NotFound(m.id));
      }
      var row := Encode(m).(createdAt := rows[m.id].createdAt);
      ghost var stored := m.(createdAt := Contents()[m.id].createdAt);
      EncodeChanged(m, m.enabled, rows[m.id].createdAt, 0);
      var written := WriteRow(row, stored);
      if !written {
        return Fail(Store(StatementFailed));
      }
    }

    method SetMappingEnabled(id: string, enabled: bool, now: Time) returns (r: Result<Mapping, Error>)
      requires Valid()
      modifies this`rows
      ensures Valid()
      ensures (Contents(), r.Success?) == SqlExec(config, old(Contents()), SetEnabled(id, enabled, now))
      ensures r.Success? ==> id in Contents() && r.value == Contents()[id]
      ensures r.Failure? ==> r.error == if id in old(Contents()) then Store(StatementFailed) else NotFound(id)
    {
      hide Blocks, Encode;
      if id in rows {
        var row := rows[id].(enabled := if enabled then 1 else 0,
                             status := StatusText(if enabled then Pending else Status.Disabled), updatedAt := now);
        ghost var stored := WithEnabled(Contents()[id], enabled, now);
        EncodeChanged(Contents()[id], enabled, 0, now);
        var written := WriteRow(row, stored);
        if !written {
          return Failure(Store(StatementFailed));
        }
      }
      r := GetMapping(id);
    }

    method SetMappingHealth(id: string, status: Status, health: Option<string>, error: Option<string>, now: Time)
      returns (r: Result<Mapping, Error>)
      requires Valid()
      modifies this`rows
      ensures Valid()
      ensures Contents() == HealthStatement(old(Contents()), id, status, health, error, now)
      ensures r == if id in Contents() then Success(Contents()[id]) else Failure(NotFound(id))
    {
      if id in rows {
        ghost var stored := WithHealth(Contents()[id], status, health, error, now);
        WriteDecodes(rows, stored);
        rows := rows[id := rows[id].(status := StatusText(status), healthStatus := health, lastError := error,
                                     lastCheckedAt := Some(now), updatedAt := now)];
      }
      r := GetMapping(id);
    }

    method DeleteMapping(id: string) returns (r: Result<Mapping, Error>)
      requires Valid()
      modifies this`rows
      ensures Valid()
      ensures (Contents(), r.Success?) == SqlExec(config, old(Contents()), Delete(id))
      ensures r == if id in old(Contents()) then Success(old(Contents())[id]) else Failure(NotFound(id))
    {
      hide Encode;
      r := GetMapping(id);
      DeleteDecodes(rows, id);
      if r.Success? {
        rows := rows - {id};
      } else {
        assert Contents() - {id} == Contents();
      }
    }
  }

  // A stored mapping is read back as it was written.
  method InsertThenGet(store: SqliteStore, m: Mapping) returns (inserted: Outcome<Error>, read: Result<Mapping, Error>)
    requires store.Valid() && WellFormedId(m.id)
    modifies store`rows
    ensures inserted.Pass? ==> read == Success(m)
  {
    inserted := store.InsertMapping(m);
    read := store.GetMapping(m.id);
  }
}
