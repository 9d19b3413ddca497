// What the address loop of a reconcile leaves on the interface, and what it reports.
module AddressLoop {
  import opened Wrappers
  import opened Addresses
  import opened Mappings
  import opened Validation
  import opened Reconciling
  import opened Site

  predicate Names(m: Mapping, a: Addr) {
    m.backend == Nft && m.edgeIp == a
  }

  // The addresses after the loop has gone over the rows once, every call succeeding.
  function Applied(addrs: set<Addr>, ms: seq<Mapping>): set<Addr> {
    if ms == [] then addrs
    else
      var before, m := Applied(addrs, ms[..|ms| - 1]), ms[|ms| - 1];
      if m.backend != Nft then before else if m.enabled then before + {m.edgeIp} else before - {m.edgeIp}
  }

  // The addresses reported as added, in order, and those reported as removed.
  function Ups(addrs: set<Addr>, ms: seq<Mapping>): seq<Addr> {
    if ms == [] then []
    else
      var front, m := ms[..|ms| - 1], ms[|ms| - 1];
      Ups(addrs, front)
      + if m.backend == Nft && m.enabled && m.edgeIp !in Applied(addrs, front) then [m.edgeIp] else []
  }

  function Downs(addrs: set<Addr>, ms: seq<Mapping>): seq<Addr> {
    if ms == [] then []
    else
      var front, m := ms[..|ms| - 1], ms[|ms| - 1];
      Downs(addrs, front)
      + if m.backend == Nft && !m.enabled && m.edgeIp in Applied(addrs, front) then [m.edgeIp] else []
  }

  // The last nft row that names the address.
  function LastNaming(ms: seq<Mapping>, a: Addr): (r: Option<Mapping>)
    ensures r.None? <==> forall i :: 0 <= i < |ms| ==> !Names(ms[i], a)
    ensures r.Some? ==> r.value in ms && Names(r.value, a)
  {
    if ms == [] then None
    else if Names(ms[|ms| - 1], a) then Some(ms[|ms| - 1])
    else LastNaming(ms[..|ms| - 1], a)
  }

  // The last row that names an address decides whether it is present; an address that no nft row
  // names is left as it was.
  lemma {:induction false} LastRowDecides(addrs: set<Addr>, ms: seq<Mapping>, a: Addr)
    ensures a in Applied(addrs, ms) <==>
            match LastNaming(ms, a)
            case Some(m) => m.enabled
            case None => a in addrs
  {
    if ms != [] {
      LastRowDecides(addrs, ms[..|ms| - 1], a);
    }
  }

  // Running the loop again changes no address.
  lemma LoopIsIdempotent(addrs: set<Addr>, ms: seq<Mapping>)
    ensures Applied(Applied(addrs, ms), ms) == Applied(addrs, ms)
  {
    forall a
      ensures a in Applied(Applied(addrs, ms), ms) <==> a in Applied(addrs, ms)
    {
      LastRowDecides(addrs, ms, a);
      LastRowDecides(Applied(addrs, ms), ms, a);
    }
  }

  // No address is shared by an enabled and a disabled nft row.
  ghost predicate Unmixed(ms: seq<Mapping>) {
    forall i, j :: 0 <= i < |ms| && 0 <= j < |ms| && ms[i].backend == ms[j].backend == Nft
                   && ms[i].edgeIp == ms[j].edgeIp ==>
      ms[i].enabled == ms[j].enabled
  }

  ghost function NamedBy(ms: seq<Mapping>, enabled: bool): set<Addr> {
    set m | m in ms && m.backend == Nft && m.enabled == enabled :: m.edgeIp
  }

  lemma UnmixedResult(addrs: set<Addr>, ms: seq<Mapping>)
    requires Unmixed(ms)
    ensures Applied(addrs, ms) == addrs + NamedBy(ms, true) - NamedBy(ms, false)
  {
  }

  // The reports balance: whatever the list, an address is reported as added once more than as removed
  // exactly when the run brought it, once less exactly when the run took it, and else as often.
  lemma {:induction false} ReportsBalance(addrs: set<Addr>, ms: seq<Mapping>, a: Addr)
    ensures multiset(Ups(addrs, ms))[a] + (if a in addrs then 1 else 0)
            == multiset(Downs(addrs, ms))[a] + (if a in Applied(addrs, ms) then 1 else 0)
  {
    if ms != [] {
      ReportsBalance(addrs, ms[..|ms| - 1], a);
    }
  }

  lemma NamedBySnoc(front: seq<Mapping>, m: Mapping, enabled: bool, a: Addr)
    ensures a in NamedBy(front + [m], enabled) <==>
            a in NamedBy(front, enabled) || (m.backend == Nft && m.enabled == enabled && m.edgeIp == a)
  {
    assert forall n :: n in front + [m] <==> n in front || n == m;
    if m.backend == Nft && m.enabled == enabled && m.edgeIp == a {
      assert m in front + [m];
    }
  }

  lemma NobodyNamed(ms: seq<Mapping>, a: Addr)
    ensures ms == [] ==> a !in NamedBy(ms, true) && a !in NamedBy(ms, false)
  {
  }

  lemma UnmixedFront(front: seq<Mapping>, m: Mapping)
    requires Unmixed(front + [m])
    ensures Unmixed(front)
    ensures m.backend == Nft ==> m.edgeIp !in NamedBy(front, !m.enabled)
  {
    var ms := front + [m];
    assert forall i :: 0 <= i < |front| ==> front[i] == ms[i];
    assert ms[|front|] == m;
  }

  // When no address is shared by an enabled and a disabled row, each address that was missing is
  // reported once as added, each that was left over once as removed, and nothing else is.
  lemma {:induction false} UnmixedReports(addrs: set<Addr>, ms: seq<Mapping>, a: Addr)
    requires Unmixed(ms)
    ensures multiset(Ups(addrs, ms))[a] == if a in NamedBy(ms, true) && a !in addrs then 1 else 0
    ensures multiset(Downs(addrs, ms))[a] == if a in NamedBy(ms, false) && a in addrs then 1 else 0
  {
    hide Unmixed, NamedBy;
    NobodyNamed(ms, a);
    if ms != [] {
      var front, m := ms[..|ms| - 1], ms[|ms| - 1];
      assert ms == front + [m];
      UnmixedFront(front, m);
      UnmixedReports(addrs, front, a);
      UnmixedResult(addrs, front);
      NamedBySnoc(front, m, true, a);
      NamedBySnoc(front, m, false, a);
    }
  }

  lemma {:induction false} QuietRun(addrs: set<Addr>, ms: seq<Mapping>)
    ensures Ups(addrs, ms) == [] && Downs(addrs, ms) == [] <==>
            forall i :: 0 <= i < |ms| && ms[i].backend == Nft ==> (ms[i].enabled <==> ms[i].edgeIp in addrs)
    ensures Ups(addrs, ms) == [] && Downs(addrs, ms) == [] ==> Applied(addrs, ms) == addrs
  {
    if ms != [] {
      var front := ms[..|ms| - 1];
      QuietRun(addrs, front);
      assert forall i :: 0 <= i < |front| ==> front[i] == ms[i];
    }
  }

  // A second run reports no change exactly when no address is shared by an enabled and a disabled
  // nft row: a shared one is removed and added again every time.
  lemma SecondRunIsQuiet(addrs: set<Addr>, ms: seq<Mapping>)
    ensures var settled := Applied(addrs, ms);
            Ups(settled, ms) == [] && Downs(settled, ms) == [] <==> Unmixed(ms)
  {
    var settled := Applied(addrs, ms);
    QuietRun(settled, ms);
    if Unmixed(ms) {
      forall i | 0 <= i < |ms| && ms[i].backend == Nft
        ensures ms[i].enabled <==> ms[i].edgeIp in settled
      {
        LastRowDecides(addrs, ms, ms[i].edgeIp);
        assert Names(ms[i], ms[i].edgeIp);
        var k :| 0 <= k < |ms| && ms[k] == LastNaming(ms, ms[i].edgeIp).value;
      }
    }
  }

  // An accepted list of two rows on one edge address, the first on and the second off: every run
  // takes the address of the enabled row away, and a second run reports both changes again.
  lemma EnabledRowLosesItsAddress()
    ensures var on, off := SiteRow("a", 1, 41, None), WithEnabled(SiteRow("b", 1, 42, None), false, 0);
            && Accepts([on, off], SITE)
            && Applied({}, [on, off]) == {} && !Unmixed([on, off])
            && Ups(Applied({}, [on, off]), [on, off]) == Downs(Applied({}, [on, off]), [on, off]) == [on.edgeIp]
  {
    hide ValidateMapping;
    var on, off := SiteRow("a", 1, 41, None), WithEnabled(SiteRow("b", 1, 42, None), false, 0);
    SiteRowIsValid("a", 1, 41, None);
    SiteRowIsValid("b", 1, 42, None);
    EnabledIrrelevantToValidity(SiteRow("b", 1, 42, None), false, 0, SITE);
    TwoRowLoop(on, off);
    assert [on, off][0] == on && [on, off][1] == off;
  }

  lemma TwoRowLoop(on: Mapping, off: Mapping)
    requires on.backend == off.backend == Nft && on.edgeIp == off.edgeIp && on.enabled && !off.enabled
    ensures Applied({}, [on, off]) == {}
    ensures Ups({}, [on, off]) == Downs({}, [on, off]) == [on.edgeIp]
  {
    var ms := [on, off];
    assert ms[..1] == [on] && [on][..0] == [];
    assert Applied({}, [on]) == {on.edgeIp};
    assert Ups({}, [on]) == [on.edgeIp] && Downs({}, [on]) == [];
  }

  // ---- The machine runs this loop ----

  ghost predicate AllGood(env: Environment) {
    forall k :: env(k).kind == Good
  }

  // From row `i` on, with every call answered, the machine reaches the end of the loop with the
  // addresses and reports above.
  lemma {:induction false} MachineRunsLoop(
    w: World, start: set<Addr>, job: Job, i: nat, env: Environment, k: nat) returns (w': World, k': nat)
    requires AllGood(env) && i <= |job.rows| && w.addrs == Applied(start, job.rows[..i])
    ensures Finish(w, AddressFrom(job, i, Ups(start, job.rows[..i]), Downs(start, job.rows[..i])), env, k)
            == Finish(w', AfterAddresses(job, Ups(start, job.rows), Downs(start, job.rows)), env, k')
    ensures w' == w.(addrs := Applied(start, job.rows), added := w'.added)
    ensures w.added == w.addrs ==> w'.added == w'.addrs
    decreases |job.rows| - i
  {
    hide Finish, Step;
    var ms := job.rows;
    if i == |ms| {
      assert ms[..i] == ms;
      return w, k;
    }
    var ups, downs := Ups(start, ms[..i]), Downs(start, ms[..i]);
    assert ms[..i + 1][..i] == ms[..i];
    if ms[i].backend != Nft {
      assert Ups(start, ms[..i + 1]) == ups && Downs(start, ms[..i + 1]) == downs;
      w', k' := MachineRunsLoop(w, start, job, i + 1, env, k);
      return;
    }
    Unfold(w, ShowAddrs(job, i, ups, downs), env, k);
    ShownGoesOn(w, job, i, ups, downs, env(k));
    if ms[i].enabled == (ms[i].edgeIp in w.addrs) {
      assert Applied(start, ms[..i + 1]) == w.addrs;
      assert Ups(start, ms[..i + 1]) == ups && Downs(start, ms[..i + 1]) == downs;
      w', k' := MachineRunsLoop(w, start, job, i + 1, env, k + 1);
    } else {
      Unfold(w, ChangeAddr(job, i, ups, downs), env, k + 1);
      ChangedGoesOn(w, job, i, ups, downs, env(k + 1));
      assert Ups(start, ms[..i + 1]) == (if ms[i].enabled then ups + [ms[i].edgeIp] else ups);
      assert Downs(start, ms[..i + 1]) == (if ms[i].enabled then downs else downs + [ms[i].edgeIp]);
      w', k' := MachineRunsLoop(WithAddr(w, ms[i]), start, job, i + 1, env, k + 2);
    }
  }

  lemma ShownGoesOn(w: World, job: Job, i: nat, ups: seq<Addr>, downs: seq<Addr>, a: Answer)
    requires a.kind == Good && i < |job.rows|
    ensures Step(w, ShowAddrs(job, i, ups, downs), a)
            == (w, if job.rows[i].enabled == (job.rows[i].edgeIp in w.addrs) then AddressFrom(job, i + 1, ups, downs)
                   else ChangeAddr(job, i, ups, downs))
  {
  }

  lemma ChangedGoesOn(w: World, job: Job, i: nat, ups: seq<Addr>, downs: seq<Addr>, a: Answer)
    requires a.kind == Good && i < |job.rows|
    ensures Step(w, ChangeAddr(job, i, ups, downs), a)
            == (WithAddr(w, job.rows[i]),
                if job.rows[i].enabled then AddressFrom(job, i + 1, ups + [job.rows[i].edgeIp], downs)
                else AddressFrom(job, i + 1, ups, downs + [job.rows[i].edgeIp]))
  {
  }
}
