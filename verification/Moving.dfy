// Giving a row another edge address, as an allocation does: what that orphans on the interface and
// in the live table.
module Moving {
  import opened Wrappers
  import opened Mappings
  import opened Ruleset
  import opened Render
  import opened ReadBack
  import opened Tables
  import opened Reconciling
  import opened Agent
  import Oci

  // ---- Rows behind rules ----

  // Switched on, the row renders to this rule.
  predicate BehindElement(m: Mapping, e: Element) {
    m.backend == Nft && m.mode == OneToOneSnat && ElementOf(m) == e
  }

  predicate BehindForward(m: Mapping, wan: string, f: Forward) {
    m.backend == Nft && m.mode == PortForwardSnat && ForwardOf(m, wan) == f
  }

  ghost predicate ElementBacked(t: Table, e: Element) {
    exists id :: id in t && BehindElement(t[id], e)
  }

  ghost predicate ForwardBacked(t: Table, wan: string, f: Forward) {
    exists id :: id in t && BehindForward(t[id], wan, f)
  }

  // A stored row stands behind every rule.
  ghost predicate RulesBacked(rs: Ruleset, t: Table, wan: string) {
    && (forall e :: e in rs.elements ==> ElementBacked(t, e))
    && (forall f :: f in rs.forwards ==> ForwardBacked(t, wan, f))
  }

  ghost predicate NamesKept(w: World, t: Table) {
    forall a :: a in w.added ==> NamedIn(t, a)
  }

  lemma SameRouteSameRules(m: Mapping, n: Mapping, wan: string)
    requires Route(m) == Route(n)
    ensures forall e :: BehindElement(m, e) <==> BehindElement(n, e)
    ensures forall f :: BehindForward(m, wan, f) <==> BehindForward(n, wan, f)
  {
    SameRoute(m, n);
  }

  // Where nothing is orphaned, a stored row stands behind every rule that can be read from the live
  // text.
  lemma LiveRulesBacked(w: World)
    requires OrphanFree(w) && w.live.Some? && Quotable(w.config.wan) && Quotable(w.config.netbird)
    ensures ReadRuleset(w.live.value).Some? && RulesBacked(ReadRuleset(w.live.value).value, w.table, w.config.wan)
  {
    hide ReadRuleset, RulesetText, ReadableRuleset, Route, BehindElement, BehindForward;
    var rows :| LiveBacked(w, rows, None);
    CompiledIsReadable(rows, w.config, TABLE_NAME);
    ReadsBack(Compile(rows, w.config, TABLE_NAME));
    forall e | e in Elements(rows)
      ensures ElementBacked(w.table, e)
    {
      ElementsMembers(rows, e);
      var i :| 0 <= i < |rows| && IsElement(rows[i]) && ElementOf(rows[i]) == e;
      RowStandsBehind(w, rows[i]);
      assert BehindElement(rows[i], e) by { ElementRow(rows[i]); }
    }
    forall f | f in Forwards(rows, w.config.wan)
      ensures ForwardBacked(w.table, w.config.wan, f)
    {
      ForwardsMembers(rows, w.config.wan, f);
      var i :| 0 <= i < |rows| && IsForward(rows[i]) && ForwardOf(rows[i], w.config.wan) == f;
      RowStandsBehind(w, rows[i]);
      assert BehindForward(rows[i], w.config.wan, f) by { ForwardRow(rows[i], w.config.wan); }
    }
  }

  lemma ElementRow(m: Mapping)
    ensures IsElement(m) ==> BehindElement(m, ElementOf(m))
  {
  }

  lemma ForwardRow(m: Mapping, wan: string)
    ensures IsForward(m) ==> BehindForward(m, wan, ForwardOf(m, wan))
  {
  }

  lemma RowStandsBehind(w: World, m: Mapping)
    requires m.id in w.table && Route(m) == Route(w.table[m.id])
    ensures forall e :: BehindElement(m, e) ==> ElementBacked(w.table, e)
    ensures forall f :: BehindForward(m, w.config.wan, f) ==> ForwardBacked(w.table, w.config.wan, f)
  {
    SameRouteSameRules(m, w.table[m.id], w.config.wan);
  }

  // ---- Replacing a row ----

  // Some row but this one stands behind the rule.
  ghost predicate ElementElsewhere(t: Table, id: string, e: Element) {
    exists other :: other in t && other != id && BehindElement(t[other], e)
  }

  ghost predicate ForwardElsewhere(t: Table, id: string, wan: string, f: Forward) {
    exists other :: other in t && other != id && BehindForward(t[other], wan, f)
  }

  // The row's own rule, if it is in force, is kept by its replacement or stands for another row.
  ghost predicate KeepsItsRule(rs: Ruleset, t: Table, row: Mapping, wan: string)
    requires row.id in t
  {
    var was := t[row.id];
    && (was.backend == Nft && was.mode == OneToOneSnat && ElementOf(was) in rs.elements ==>
          BehindElement(row, ElementOf(was)) || ElementElsewhere(t, row.id, ElementOf(was)))
    && (was.backend == Nft && was.mode == PortForwardSnat && ForwardOf(was, wan) in rs.forwards ==>
          BehindForward(row, wan, ForwardOf(was, wan)) || ForwardElsewhere(t, row.id, wan, ForwardOf(was, wan)))
  }

  lemma ElementAfterReplacing(t: Table, row: Mapping, e: Element)
    requires row.id in t
    ensures ElementBacked(t[row.id := row], e) <==> BehindElement(row, e) || ElementElsewhere(t, row.id, e)
  {
    var t' := t[row.id := row];
    if BehindElement(row, e) {
      assert BehindElement(t'[row.id], e);
    } else if ElementElsewhere(t, row.id, e) {
      var other :| other in t && other != row.id && BehindElement(t[other], e);
      assert BehindElement(t'[other], e);
    }
  }

  lemma ForwardAfterReplacing(t: Table, row: Mapping, wan: string, f: Forward)
    requires row.id in t
    ensures ForwardBacked(t[row.id := row], wan, f) <==>
            BehindForward(row, wan, f) || ForwardElsewhere(t, row.id, wan, f)
  {
    var t' := t[row.id := row];
    if BehindForward(row, wan, f) {
      assert BehindForward(t'[row.id], wan, f);
    } else if ForwardElsewhere(t, row.id, wan, f) {
      var other :| other in t && other != row.id && BehindForward(t[other], wan, f);
      assert BehindForward(t'[other], wan, f);
    }
  }

  lemma RulesAfterReplacing(rs: Ruleset, t: Table, row: Mapping, wan: string)
    requires row.id in t && RulesBacked(rs, t, wan)
    ensures RulesBacked(rs, t[row.id := row], wan) <==> KeepsItsRule(rs, t, row, wan)
  {
    hide ElementBacked, ForwardBacked;
    forall e | e in rs.elements
      ensures ElementBacked(t[row.id := row], e) <==> BehindElement(row, e) || ElementElsewhere(t, row.id, e)
      ensures BehindElement(t[row.id], e) || ElementElsewhere(t, row.id, e)
    {
      ElementAfterReplacing(t, row, e);
      assert ElementBacked(t, e);
      BackedHereOrElsewhere(t, row.id, wan);
    }
    forall f | f in rs.forwards
      ensures ForwardBacked(t[row.id := row], wan, f) <==>
              BehindForward(row, wan, f) || ForwardElsewhere(t, row.id, wan, f)
      ensures BehindForward(t[row.id], wan, f) || ForwardElsewhere(t, row.id, wan, f)
    {
      ForwardAfterReplacing(t, row, wan, f);
      assert ForwardBacked(t, wan, f);
      BackedHereOrElsewhere(t, row.id, wan);
    }
  }

  lemma BackedHereOrElsewhere(t: Table, id: string, wan: string)
    requires id in t
    ensures forall e :: ElementBacked(t, e) ==> BehindElement(t[id], e) || ElementElsewhere(t, id, e)
    ensures forall f :: ForwardBacked(t, wan, f) ==> BehindForward(t[id], wan, f) || ForwardElsewhere(t, id, wan, f)
  {
  }

  lemma NamesAfterReplacing(w: World, row: Mapping)
    requires OrphanFree(w) && row.id in w.table
    ensures var was := w.table[row.id];
            NamesKept(w, w.table[row.id := row]) <==>
            || was.edgeIp !in w.added
            || (row.backend == Nft && row.edgeIp == was.edgeIp)
            || NamedByOther(w.table, row.id, was.edgeIp)
  {
    var was, t := w.table[row.id], w.table[row.id := row];
    forall a | a in w.added
      ensures NamedIn(t, a) <==> (row.backend == Nft && row.edgeIp == a) || NamedByOther(w.table, row.id, a)
      ensures a == was.edgeIp || NamedByOther(w.table, row.id, a)
    {
      assert NamedIn(w.table, a);
      if row.backend == Nft && row.edgeIp == a {
        assert t[row.id].edgeIp == a;
      } else if NamedByOther(w.table, row.id, a) {
        var other :| other in w.table && other != row.id && w.table[other].backend == Nft && w.table[other].edgeIp == a;
        assert t[other].edgeIp == a;
      }
    }
  }

  // Replacing a stored row orphans its address exactly when that was added, the new row names
  // another one and no other nft row names it; it orphans the row's rule exactly when that is in
  // force, the new row renders to another one and no other row stands behind it.
  lemma MovingARowOrphansExactly(w: World, row: Mapping)
    requires OrphanFree(w) && row.id in w.table && Quotable(w.config.wan) && Quotable(w.config.netbird)
    ensures var was := w.table[row.id];
            NamesKept(w, w.table[row.id := row]) <==>
            || was.edgeIp !in w.added
            || (row.backend == Nft && row.edgeIp == was.edgeIp)
            || NamedByOther(w.table, row.id, was.edgeIp)
    ensures w.live.Some? ==>
              && ReadRuleset(w.live.value).Some?
              && var rs := ReadRuleset(w.live.value).value;
                 RulesBacked(rs, w.table[row.id := row], w.config.wan)
                 <==> KeepsItsRule(rs, w.table, row, w.config.wan)
  {
    hide OrphanFree, RulesBacked, KeepsItsRule, NamesKept, ReadRuleset;
    NamesAfterReplacing(w, row);
    if w.live.Some? {
      LiveRulesBacked(w);
      RulesAfterReplacing(ReadRuleset(w.live.value).value, w.table, row, w.config.wan);
    }
  }

  // ---- An allocation ----

  // The row's rule, under the address it had, is in force.
  predicate InForce(rs: Ruleset, m: Mapping, wan: string) {
    m.backend == Nft && if m.mode == OneToOneSnat then ElementOf(m) in rs.elements else ForwardOf(m, wan) in rs.forwards
  }

  // Some other row stands behind the same rule.
  ghost predicate RuleElsewhere(t: Table, id: string, wan: string)
    requires id in t
  {
    if t[id].mode == OneToOneSnat then ElementElsewhere(t, id, ElementOf(t[id]))
    else ForwardElsewhere(t, id, wan, ForwardOf(t[id], wan))
  }

  // An allocation that succeeds moves the row to the new private address. That orphans the row's old
  // address exactly when a reconcile had added it, the new one differs and no other nft row names
  // it; and it orphans the row's rule exactly when that is in force, the address differs and no
  // other row stands behind the rule.
  lemma AllocationOrphansExactly(w: World, s: Oci.Saga, id: string, env: Oci.Replies, k: nat)
    requires OrphanFree(w) && Quotable(w.config.wan) && Quotable(w.config.netbird)
    requires s.table == w.table && Oci.Allocate(s, id, env, k).1
    ensures id in w.table
    ensures var was, t := w.table[id], Oci.Allocate(s, id, env, k).0.table;
            && (NamesKept(w, t) <==>
                || was.edgeIp !in w.added
                || (was.backend == Nft && env(k + 2).ip == was.edgeIp)
                || NamedByOther(w.table, id, was.edgeIp))
            && (w.live.Some? ==>
                  && ReadRuleset(w.live.value).Some?
                  && var rs := ReadRuleset(w.live.value).value;
                     (RulesBacked(rs, t, w.config.wan) <==>
                      || !InForce(rs, was, w.config.wan)
                      || env(k + 2).ip == was.edgeIp
                      || RuleElsewhere(w.table, id, w.config.wan)))
  {
    hide OrphanFree, RulesBacked, NamesKept, ReadRuleset, ElementElsewhere, ForwardElsewhere, NamedByOther;
    OrphanFreeKeyed(w);
    var row := AllocationMoves(s, id, env, k);
    MovingARowOrphansExactly(w, row);
    if w.live.Some? {
      MovedRuleKept(ReadRuleset(w.live.value).value, w.table, row, w.config.wan);
    }
  }

  // What a successful allocation writes.
  lemma AllocationMoves(s: Oci.Saga, id: string, env: Oci.Replies, k: nat) returns (row: Mapping)
    requires Keyed(s.table) && Oci.Allocate(s, id, env, k).1
    ensures id in s.table && row.id == id && Oci.Allocate(s, id, env, k).0.table == s.table[id := row]
    ensures row.edgeIp == env(k + 2).ip && Moved(s.table[id], row)
  {
    hide SqlExec, Oci.CreatePrivate, Oci.CreatePublic, Oci.CompensatePrivate, Oci.CompensatePublic, Oci.WriteRow;
    Oci.CloudKeepsRows(s, env, k + 1, true, None);
    var m := s.table[id];
    row := Oci.AllocatedRow(m, env(k + 2), env(k + 3), env(k + 4).now);
    Oci.WriteRowIs(Oci.ForwardingIp(s, env, k + 1).0, row, env(k + 4));
    row := row.(createdAt := m.createdAt);
  }

  // The same rule but for the edge address.
  predicate Moved(was: Mapping, row: Mapping) {
    && row.id == was.id && row.backend == was.backend && row.mode == was.mode && row.targetIp == was.targetIp
    && row.protocol == was.protocol && row.publicPort == was.publicPort && row.targetPort == was.targetPort
  }

  lemma MovedRuleKept(rs: Ruleset, t: Table, row: Mapping, wan: string)
    requires row.id in t && Moved(t[row.id], row)
    ensures KeepsItsRule(rs, t, row, wan) <==>
            !InForce(rs, t[row.id], wan) || row.edgeIp == t[row.id].edgeIp || RuleElsewhere(t, row.id, wan)
  {
    hide ElementElsewhere, ForwardElsewhere;
  }
}
