// Reading a rendered ruleset back: the text determines the ruleset, and the file it makes does to
// every packet what the ruleset does.
module ReadBack {
  import opened Wrappers
  import opened Addresses
  import opened Mappings
  import opened Ruleset
  import opened Text
  import opened Render
  import opened NftFiles

  // A name that can stand between the quotes of a rule.
  predicate Quotable(name: string) {
    '"' !in name && '\n' !in name
  }

  ghost predicate ReadableRuleset(rs: Ruleset) {
    && '\n' !in rs.table
    && (forall f :: f in rs.forwards ==> Quotable(f.iif))
    && (forall m :: m in rs.masquerades ==> Quotable(m.oif))
  }

  // ---- The ruleset of a file ----

  const PREROUTING_HOOK := Hook("nat", "prerouting", "dstnat", "accept")
  const POSTROUTING_HOOK := Hook("nat", "postrouting", "srcnat", "accept")
  const MAP_KIND := "ipv4_addr : ipv4_addr"

  function ForwardsOf(ss: seq<Statement>): Option<seq<Forward>> {
    if ss == [] then Some([])
    else match (ForwardsOf(ss[..|ss| - 1]), ss[|ss| - 1])
      case (Some(fs), Dnat(f)) => Some(fs + [f])
      case _ => None
  }

  function MasqueradesOf(ss: seq<Statement>): Option<seq<Masquerade>> {
    if ss == [] then Some([])
    else match (MasqueradesOf(ss[..|ss| - 1]), ss[|ss| - 1])
      case (Some(ms), MasqueradeTo(m)) => Some(ms + [m])
      case _ => None
  }

  // A file that replaces its table by one with a single map and two chains: in prerouting the port
  // forwards and then the lookup in that map, in postrouting the masquerade rules.
  predicate WellShaped(file: NftFile) {
    && file.table.Some? && file.destroyed == file.table
    && |file.maps| == 1 && file.maps[0].kind == MAP_KIND && |file.chains| == 2
    && file.chains[0].hook == Some(PREROUTING_HOOK) && file.chains[1].hook == Some(POSTROUTING_HOOK)
    && file.chains[0].statements != []
    && file.chains[0].statements[|file.chains[0].statements| - 1] == DnatByMap(file.maps[0].name)
  }

  function RulesetOf(file: NftFile): Option<Ruleset> {
    if !WellShaped(file) then None
    else
      var inward, outward := file.chains[0].statements, file.chains[1].statements;
      match (ForwardsOf(inward[..|inward| - 1]), MasqueradesOf(outward))
      case (Some(fs), Some(ms)) => Some(Ruleset(file.table.value, file.maps[0].elements, fs, ms))
      case _ => None
  }

  function ReadRuleset(text: string): Option<Ruleset> {
    match ReadFile(text)
    case None => None
    case Some(file) => RulesetOf(file)
  }

  // ---- Running the file is running the ruleset ----

  lemma {:induction false} ForwardsRun(ss: seq<Statement>, last: Statement, maps: seq<AddrMap>, p: Packet)
    requires ForwardsOf(ss).Some?
    ensures RunDnat(ss + [last], maps, p)
            == match FirstMatch(ForwardsOf(ss).value, p)
               case Some(f) => Rewritten(f.target, f.targetPort)
               case None => RunDnat([last], maps, p)
    decreases |ss|
  {
    if ss == [] {
      assert ss + [last] == [last];
    } else {
      FirstForward(ss);
      assert (ss + [last])[1..] == ss[1..] + [last];
      ForwardsRun(ss[1..], last, maps, p);
    }
  }

  // The forwards from the front.
  lemma {:induction false} FirstForward(ss: seq<Statement>)
    requires ss != [] && ForwardsOf(ss).Some?
    ensures ss[0].Dnat? && ForwardsOf(ss[1..]).Some? && ForwardsOf(ss).value == [ss[0].rule] + ForwardsOf(ss[1..]).value
    decreases |ss|
  {
    var front := ss[..|ss| - 1];
    if front == [] {
      assert ss[1..] == [];
    } else {
      FirstForward(front);
      assert front[1..] == ss[1..][..|ss| - 2];
    }
  }

  lemma {:induction false} MasqueradesAtEach(ss: seq<Statement>)
    requires MasqueradesOf(ss).Some?
    ensures |MasqueradesOf(ss).value| == |ss|
    ensures forall i :: 0 <= i < |ss| ==> ss[i] == MasqueradeTo(MasqueradesOf(ss).value[i])
  {
    if ss != [] {
      MasqueradesAtEach(ss[..|ss| - 1]);
    }
  }

  // What a file does is what its ruleset does.
  lemma RulesetRuns(file: NftFile, p: Packet, oif: string, ip: Addr)
    requires RulesetOf(file).Some?
    ensures Prerouting(file, p) == Translate(RulesetOf(file).value, p)
    ensures Postrouting(file, oif, ip) <==> Masqueraded(RulesetOf(file).value, oif, ip)
  {
    var inward, outward := file.chains[0].statements, file.chains[1].statements;
    var forwards, last := inward[..|inward| - 1], inward[|inward| - 1];
    assert inward == forwards + [last];
    ForwardsRun(forwards, last, file.maps, p);
    MasqueradesAtEach(outward);
    assert file.chains[1..][0] == file.chains[1];
    assert StatementsAt(file.chains, PREROUTING_HOOK) == inward;
    assert StatementsAt(file.chains, POSTROUTING_HOOK) == outward;
    assert RunDnat([last], file.maps, p) == match Lookup(file.maps[0].elements, p.daddr)
                                            case Some(target) => Rewritten(target, p.dport)
                                            case None => Untouched by {
      assert [last][1..] == [];
      assert MapNamed(file.maps, file.maps[0].name) == Some(file.maps[0]);
    }
  }

  // ---- Each line is read back ----

  lemma StripPrefix(prefix: string, rest: string)
    ensures Strip(prefix, prefix + rest) == Some(rest)
  {
  }

  lemma FieldOf(prefix: string, x: string, c: char, rest: string)
    requires c !in x
    ensures Field(prefix, prefix + (x + [c] + rest), c) == Some((x, rest))
  {
    StripPrefix(prefix, x + [c] + rest);
    CutAtFirst(x, c, rest);
  }

  lemma OpenedIs(prefix: string, name: string)
    ensures Opened(prefix, prefix + (name + " {")) == Some(name)
  {
    StripPrefix(prefix, name + " {");
    assert (name + " {")[|name|..] == " {" && (name + " {")[..|name|] == name;
  }

  lemma ReadsElement(e: Element)
    ensures ReadElement(ElementLine(e)) == Some(e)
  {
    var key, target := AddrText(e.key), AddrText(e.target);
    var tail := target + [','] + "";
    AddrTextHasNo(e.key, ' ');
    AddrTextHasNo(e.target, ',');
    FieldOf("            ", key, ' ', ": " + tail);
    FieldOf(": ", target, ',', "");
    ParseAddrText(e.key);
    ParseAddrText(e.target);
  }

  lemma ReadsPort(port: Port)
    ensures ReadPort(Dec(port)) == Some(port)
  {
    ParseDecExact(Dec(port), 65536, port);
  }

  lemma ReadsProtocol(p: Protocol)
    ensures ReadProtocol(ProtocolName(p)) == Some(p)
    ensures ' ' !in ProtocolName(p) && '\n' !in ProtocolName(p)
  {
  }

  lemma ReadsForwardTail(f: Forward, daddr: string)
    requires ParseAddr(daddr) == Some(f.daddr)
    ensures ReadForwardTail(f.iif, daddr, ForwardTail(f)) == Some(Dnat(f))
  {
    var protocol, dport, target := ProtocolName(f.protocol), Dec(f.dport), AddrText(f.target);
    var tail := target + [':'] + Dec(f.targetPort);
    ReadsProtocol(f.protocol);
    CutAtFirst(protocol, ' ', "dport " + (dport + [' '] + ("dnat to " + tail)));
    DigitsHave(dport, ' ');
    FieldOf("dport ", dport, ' ', "dnat to " + tail);
    AddrTextHasNo(f.target, ':');
    FieldOf("dnat to ", target, ':', Dec(f.targetPort));
    ReadsPort(f.dport);
    ReadsPort(f.targetPort);
    ParseAddrText(f.target);
  }

  lemma ReadsForward(f: Forward)
    requires Quotable(f.iif)
    ensures ReadStatement(ForwardLine(f)) == Some(Dnat(f))
    ensures Class(ForwardLine(f)) == 'i'
  {
    hide ReadForwardTail, ForwardTail;
    var daddr := AddrText(f.daddr);
    FieldOf("        iifname \"", f.iif, '"', " ip daddr " + (daddr + [' '] + ForwardTail(f)));
    AddrTextHasNo(f.daddr, ' ');
    FieldOf(" ip daddr ", daddr, ' ', ForwardTail(f));
    ParseAddrText(f.daddr);
    ReadsForwardTail(f, daddr);
  }

  lemma ReadsMasqueradeTail(m: Masquerade)
    ensures ReadMasqueradeTail(m.oif, AddrText(m.cidr.addr), MasqueradeTail(m)) == Some(MasqueradeTo(m))
  {
    var prefix := Dec(m.cidr.prefix);
    DigitsHave(prefix, ' ');
    CutAtFirst(prefix, ' ', "masquerade");
    ParseAddrText(m.cidr.addr);
    ParseDecExact(prefix, 33, m.cidr.prefix);
  }

  lemma ReadsMasquerade(m: Masquerade)
    requires Quotable(m.oif)
    ensures ReadStatement(MasqueradeLine(m)) == Some(MasqueradeTo(m))
    ensures Class(MasqueradeLine(m)) == 'o'
  {
    hide ReadMasqueradeTail, MasqueradeTail;
    var addr := AddrText(m.cidr.addr);
    FieldOf("        oifname \"", m.oif, '"', " ip daddr " + (addr + ['/'] + MasqueradeTail(m)));
    AddrTextHasNo(m.cidr.addr, '/');
    FieldOf(" ip daddr ", addr, '/', MasqueradeTail(m));
    ReadsMasqueradeTail(m);
  }

  lemma ReadsHook(hook: string, priority: string)
    requires ' ' !in hook && ';' !in priority
    ensures ReadHook(HookLine(hook, priority)) == Some(Hook("nat", hook, priority, "accept"))
    ensures Class(HookLine(hook, priority)) == 't'
  {
    FieldOf("        type ", "nat", ' ', "hook " + (hook + [' '] + HookTail(priority)));
    FieldOf("hook ", hook, ' ', HookTail(priority));
    FieldOf("priority ", priority, ';', " policy " + ("accept" + [';'] + ""));
    FieldOf(" policy ", "accept", ';', "");
  }

  lemma ReadsMapRule()
    ensures ReadStatement(MAP_RULE) == Some(DnatByMap(MAP_NAME)) && Class(MAP_RULE) == 'd'
  {
    StripPrefix("        dnat to ip daddr map @", MAP_NAME);
  }

  lemma ReadsMapType(m: AddrMap, file: NftFile)
    ensures ReadInMap(m, file, MAP_TYPE) == Some(Draft(InMap(m.(kind := MAP_KIND)), file))
  {
    FieldOf("        type ", MAP_KIND, ';', "");
    assert Class(MAP_TYPE) == 't';
  }

  // ---- Line after line ----

  lemma {:induction false} ReadAppend(d: Option<Draft>, x: seq<string>, y: seq<string>)
    ensures ReadLines(d, x + y) == ReadLines(ReadLines(d, x), y)
    decreases |y|
  {
    if y == [] {
      assert x + y == x;
    } else {
      ReadAppend(d, x, y[..|y| - 1]);
      assert (x + y)[..|x + y| - 1] == x + y[..|y| - 1];
      ReadNothing(y);
    }
  }

  lemma {:induction false} ReadNothing(lines: seq<string>)
    ensures ReadLines(None, lines) == None
  {
    if lines != [] {
      ReadNothing(lines[..|lines| - 1]);
    }
  }

  lemma ReadSnoc(d: Option<Draft>, lines: seq<string>, line: string, d': Draft)
    requires ReadLines(d, lines) == Some(d')
    ensures ReadLines(d, lines + [line]) == ReadLine(d', line)
  {
    assert (lines + [line])[..|lines|] == lines;
  }

  // The lines lead from each draft to the next.
  lemma {:induction false} ReadPath(ds: seq<Draft>, lines: seq<string>)
    requires |ds| == |lines| + 1
    requires forall i :: 0 <= i < |lines| ==> ReadLine(ds[i], lines[i]) == Some(ds[i + 1])
    ensures ReadLines(Some(ds[0]), lines) == Some(ds[|lines|])
  {
    hide ReadLine;
    if lines != [] {
      var n := |lines| - 1;
      ReadPath(ds[..n + 1], lines[..n]);
      assert lines[..n] + [lines[n]] == lines;
      ReadSnoc(Some(ds[0]), lines[..n], lines[n], ds[n]);
    }
  }

  lemma ReadTwo(d0: Draft, a: string, d1: Draft, b: string, d2: Draft)
    requires ReadLine(d0, a) == Some(d1) && ReadLine(d1, b) == Some(d2)
    ensures ReadLines(Some(d0), [a, b]) == Some(d2)
  {
    hide ReadLine;
    ReadPath([d0, d1, d2], [a, b]);
  }

  lemma ReadSix(
    d0: Draft, a: string, d1: Draft, b: string, d2: Draft, c: string, d3: Draft, d: string, d4: Draft, e: string,
    d5: Draft, f: string, d6: Draft)
    requires ReadLine(d0, a) == Some(d1) && ReadLine(d1, b) == Some(d2) && ReadLine(d2, c) == Some(d3)
    requires ReadLine(d3, d) == Some(d4) && ReadLine(d4, e) == Some(d5) && ReadLine(d5, f) == Some(d6)
    ensures ReadLines(Some(d0), [a, b, c, d, e, f]) == Some(d6)
  {
    hide ReadLine;
    ReadPath([d0, d1, d2, d3, d4, d5, d6], [a, b, c, d, e, f]);
  }

  // ---- The whole text is read back ----

  function DnatsOf(fs: seq<Forward>): seq<Statement> {
    if fs == [] then [] else DnatsOf(fs[..|fs| - 1]) + [Dnat(fs[|fs| - 1])]
  }

  function MasqueradeRules(ms: seq<Masquerade>): seq<Statement> {
    if ms == [] then [] else MasqueradeRules(ms[..|ms| - 1]) + [MasqueradeTo(ms[|ms| - 1])]
  }

  // The file of a ruleset.
  function FileOf(rs: Ruleset): NftFile {
    NftFile(Some(rs.table), Some(rs.table), [AddrMap(MAP_NAME, MAP_KIND, rs.elements)],
            [Chain("prerouting", Some(PREROUTING_HOOK), DnatsOf(rs.forwards) + [DnatByMap(MAP_NAME)]),
             Chain("postrouting", Some(POSTROUTING_HOOK), MasqueradeRules(rs.masquerades))])
  }

  lemma ForwardsSnoc(ss: seq<Statement>, f: Forward)
    requires ForwardsOf(ss).Some?
    ensures ForwardsOf(ss + [Dnat(f)]) == Some(ForwardsOf(ss).value + [f])
  {
    assert (ss + [Dnat(f)])[..|ss|] == ss;
  }

  lemma MasqueradesSnoc(ss: seq<Statement>, m: Masquerade)
    requires MasqueradesOf(ss).Some?
    ensures MasqueradesOf(ss + [MasqueradeTo(m)]) == Some(MasqueradesOf(ss).value + [m])
  {
    assert (ss + [MasqueradeTo(m)])[..|ss|] == ss;
  }

  lemma {:induction false} DnatsBack(fs: seq<Forward>)
    ensures ForwardsOf(DnatsOf(fs)) == Some(fs)
  {
    if fs != [] {
      DnatsBack(fs[..|fs| - 1]);
      ForwardsSnoc(DnatsOf(fs[..|fs| - 1]), fs[|fs| - 1]);
      assert fs[..|fs| - 1] + [fs[|fs| - 1]] == fs;
    }
  }

  lemma {:induction false} MasqueradesBack(ms: seq<Masquerade>)
    ensures MasqueradesOf(MasqueradeRules(ms)) == Some(ms)
  {
    if ms != [] {
      MasqueradesBack(ms[..|ms| - 1]);
      MasqueradesSnoc(MasqueradeRules(ms[..|ms| - 1]), ms[|ms| - 1]);
      assert ms[..|ms| - 1] + [ms[|ms| - 1]] == ms;
    }
  }

  lemma FileOfIsRead(rs: Ruleset)
    ensures RulesetOf(FileOf(rs)) == Some(rs)
  {
    hide ForwardsOf, MasqueradesOf, DnatsOf, MasqueradeRules;
    DnatsBack(rs.forwards);
    MasqueradesBack(rs.masquerades);
    var inward := FileOf(rs).chains[0].statements;
    assert inward[..|inward| - 1] == DnatsOf(rs.forwards);
  }

  lemma {:induction false} ElementsRead(m: AddrMap, file: NftFile, es: seq<Element>)
    ensures ReadLines(Some(Draft(InElements(m), file)), Mapped(es, ElementLine))
            == Some(Draft(InElements(m.(elements := m.elements + es)), file))
  {
    hide ElementLine, ReadInElements;
    if es == [] {
      assert m.elements + es == m.elements;
    } else {
      var front, last := es[..|es| - 1], es[|es| - 1];
      ElementsRead(m, file, front);
      ElementStep(m.(elements := m.elements + front), file, last);
      ReadSnoc(Some(Draft(InElements(m), file)), Mapped(front, ElementLine), ElementLine(last),
               Draft(InElements(m.(elements := m.elements + front)), file));
      assert m.elements + front + [last] == m.elements + es;
    }
  }

  lemma ElementStep(m: AddrMap, file: NftFile, e: Element)
    ensures ReadInElements(m, file, ElementLine(e)) == Some(Draft(InElements(m.(elements := m.elements + [e])), file))
  {
    hide ReadElement;
    ReadsElement(e);
    assert ElementLine(e)[8] == ' ' && ELEMENTS_CLOSE[8] == '}';
  }

  lemma {:induction false} ForwardsRead(c: Chain, file: NftFile, fs: seq<Forward>)
    requires forall f :: f in fs ==> Quotable(f.iif)
    ensures ReadLines(Some(Draft(InChain(c), file)), Mapped(fs, ForwardLine))
            == Some(Draft(InChain(c.(statements := c.statements + DnatsOf(fs))), file))
  {
    hide ForwardLine, ReadInChain, ReadStatement, Class;
    if fs == [] {
      assert c.statements + DnatsOf(fs) == c.statements;
    } else {
      var front, last := fs[..|fs| - 1], fs[|fs| - 1];
      ForwardsRead(c, file, front);
      ReadSnoc(Some(Draft(InChain(c), file)), Mapped(front, ForwardLine), ForwardLine(last),
               Draft(InChain(c.(statements := c.statements + DnatsOf(front))), file));
      ReadsForward(last);
      StatementStep(c.(statements := c.statements + DnatsOf(front)), file, ForwardLine(last));
      assert c.statements + DnatsOf(front) + [Dnat(last)] == c.statements + DnatsOf(fs);
    }
  }

  lemma {:induction false} MasqueradesRead(c: Chain, file: NftFile, ms: seq<Masquerade>)
    requires forall m :: m in ms ==> Quotable(m.oif)
    ensures ReadLines(Some(Draft(InChain(c), file)), Mapped(ms, MasqueradeLine))
            == Some(Draft(InChain(c.(statements := c.statements + MasqueradeRules(ms))), file))
  {
    hide MasqueradeLine, ReadInChain, ReadStatement, Class;
    if ms == [] {
      assert c.statements + MasqueradeRules(ms) == c.statements;
    } else {
      var front, last := ms[..|ms| - 1], ms[|ms| - 1];
      MasqueradesRead(c, file, front);
      ReadSnoc(Some(Draft(InChain(c), file)), Mapped(front, MasqueradeLine), MasqueradeLine(last),
               Draft(InChain(c.(statements := c.statements + MasqueradeRules(front))), file));
      ReadsMasquerade(last);
      StatementStep(c.(statements := c.statements + MasqueradeRules(front)), file, MasqueradeLine(last));
      assert c.statements + MasqueradeRules(front) + [MasqueradeTo(last)] == c.statements + MasqueradeRules(ms);
    }
  }

  lemma StatementStep(c: Chain, file: NftFile, line: string)
    requires Class(line) in {'i', 'o', 'd'} && ReadStatement(line).Some?
    ensures ReadInChain(c, file, line)
            == Some(Draft(InChain(c.(statements := c.statements + [ReadStatement(line).value])), file))
  {
    hide ReadStatement;
    assert Class("    }") == '-' == Class("");
  }

  // ---- The fixed lines ----

  lemma TopSteps(table: string)
    ensures ReadTop(START.file, DestroyLine(table)) == Some(Draft(Top, NftFile(Some(table), None, [], [])))
    ensures ReadTop(NftFile(Some(table), None, [], []), TableLine(table))
            == Some(Draft(Body, NftFile(Some(table), Some(table), [], [])))
  {
    StripPrefix("destroy table ip ", table);
    OpenedIs("table ip ", table);
    assert DestroyLine(table)[0] == 'd' && TableLine(table)[0] == 't' && "destroy table ip "[0] == 'd';
  }

  lemma BlankTop(file: NftFile)
    ensures ReadTop(file, "") == Some(Draft(Top, file))
  {
  }

  lemma BodySteps(file: NftFile)
    ensures ReadBody(file, MAP_OPEN) == Some(Draft(InMap(AddrMap(MAP_NAME, "", [])), file))
    ensures ReadBody(file, END) == Some(Draft(Top, file))
  {
    OpenedIs("    map ", MAP_NAME);
    assert MAP_OPEN[0] == ' ' && END[0] == '}';
  }

  lemma MapSteps(m: AddrMap, file: NftFile)
    ensures ReadInMap(m, file, ELEMENTS_OPEN) == Some(Draft(InElements(m), file))
    ensures ReadInMap(m, file, CLOSE) == Some(Draft(Body, file.(maps := file.maps + [m])))
    ensures ReadInElements(m, file, ELEMENTS_CLOSE) == Some(Draft(InMap(m), file))
  {
    assert Class(ELEMENTS_OPEN) == 'e' && ELEMENTS_OPEN != CLOSE;
  }

  lemma ChainOpens(file: NftFile, name: string)
    ensures ReadBody(file, ChainLine(name)) == Some(Draft(InChain(Chain(name, None, [])), file))
  {
    OpenedIs("    chain ", name);
    assert "    map "[4] == 'm' && ChainLine(name)[4] == "    chain "[4] == 'c' && ChainLine(name)[0] == ' ';
  }

  lemma HookStep(c: Chain, file: NftFile, hook: string, priority: string)
    requires ' ' !in hook && ';' !in priority && c.hook.None?
    ensures ReadInChain(c, file, HookLine(hook, priority))
            == Some(Draft(InChain(c.(hook := Some(Hook("nat", hook, priority, "accept")))), file))
  {
    hide ReadHook, HookLine;
    ReadsHook(hook, priority);
    assert Class("    }") == '-' == Class("");
  }

  lemma BlankSteps(file: NftFile, c: Chain)
    ensures ReadBody(file, "") == Some(Draft(Body, file)) && ReadInChain(c, file, "") == Some(Draft(InChain(c), file))
    ensures ReadInChain(c, file, CLOSE) == Some(Draft(Body, file.(chains := file.chains + [c])))
  {
  }

  lemma ChainHeadReads(file: NftFile, hook: string, priority: string)
    requires ' ' !in hook && ';' !in priority
    ensures ReadLines(Some(Draft(Body, file)), ChainHead(hook, priority))
            == Some(Draft(InChain(Chain(hook, Some(Hook("nat", hook, priority, "accept")), [])), file))
  {
    hide ReadBody, ReadInChain, HookLine, ChainLine;
    var c := Chain(hook, None, []);
    var c' := c.(hook := Some(Hook("nat", hook, priority, "accept")));
    ChainOpens(file, hook);
    HookStep(c, file, hook, priority);
    BlankSteps(file, c');
    ReadTwo(Draft(Body, file), "", Draft(Body, file), ChainLine(hook), Draft(InChain(c), file));
    ReadTwo(Draft(InChain(c), file), HookLine(hook, priority), Draft(InChain(c'), file), "", Draft(InChain(c'), file));
    ReadAppend(Some(Draft(Body, file)), ["", ChainLine(hook)], [HookLine(hook, priority), ""]);
    assert ["", ChainLine(hook)] + [HookLine(hook, priority), ""] == ChainHead(hook, priority);
  }

  lemma HeadReads(table: string)
    ensures ReadLines(Some(START), HeadLines(table))
            == Some(Draft(InElements(AddrMap(MAP_NAME, MAP_KIND, [])), NftFile(Some(table), Some(table), [], [])))
  {
    hide ReadTop, ReadBody, ReadInMap, ReadInElements;
    var file0, file1 := NftFile(Some(table), None, [], []), NftFile(Some(table), Some(table), [], []);
    var m0, m1 := AddrMap(MAP_NAME, "", []), AddrMap(MAP_NAME, MAP_KIND, []);
    TopSteps(table);
    BlankTop(file0);
    BodySteps(file1);
    ReadsMapType(m0, file1);
    MapSteps(m1, file1);
    ReadSix(START, DestroyLine(table), Draft(Top, file0), "", Draft(Top, file0), TableLine(table), Draft(Body, file1),
            MAP_OPEN, Draft(InMap(m0), file1), MAP_TYPE, Draft(InMap(m1), file1), ELEMENTS_OPEN,
            Draft(InElements(m1), file1));
  }

  // From the end of the elements to the prerouting rules.
  lemma MiddleReads(m: AddrMap, file: NftFile)
    ensures ReadLines(Some(Draft(InElements(m), file)), MIDDLE_LINES)
            == Some(Draft(InChain(Chain("prerouting", Some(PREROUTING_HOOK), [])), file.(maps := file.maps + [m])))
  {
    hide ReadBody, ReadInMap, ReadInElements, ChainHead, ReadLines;
    var file' := file.(maps := file.maps + [m]);
    MapSteps(m, file);
    ReadTwo(Draft(InElements(m), file), ELEMENTS_CLOSE, Draft(InMap(m), file), CLOSE, Draft(Body, file'));
    ChainHeadReads(file', "prerouting", "dstnat");
    ReadAppend(Some(Draft(InElements(m), file)), [ELEMENTS_CLOSE, CLOSE], ChainHead("prerouting", "dstnat"));
  }

  lemma GapReads(rs: Ruleset, c: Chain, file: NftFile)
    ensures ReadLines(Some(Draft(InChain(c), file)), GapLines(rs)) == Some(Draft(InChain(c), file))
  {
    hide ReadInChain;
    BlankSteps(file, c);
    var d := Draft(InChain(c), file);
    ReadPath([d], []);
    ReadPath([d, d], [""]);
  }

  lemma MapRuleStep(c: Chain, file: NftFile)
    ensures ReadInChain(c, file, MAP_RULE)
            == Some(Draft(InChain(c.(statements := c.statements + [DnatByMap(MAP_NAME)])), file))
  {
    hide ReadInChain;
    ReadsMapRule();
    StatementStep(c, file, MAP_RULE);
  }

  // From the map rule to the postrouting rules.
  lemma MapRuleReads(c: Chain, file: NftFile)
    ensures var c' := c.(statements := c.statements + [DnatByMap(MAP_NAME)]);
            ReadLines(Some(Draft(InChain(c), file)), MAP_LINES)
            == Some(Draft(InChain(Chain("postrouting", Some(POSTROUTING_HOOK), [])),
                          file.(chains := file.chains + [c'])))
  {
    hide ReadBody, ReadStatement, ReadInChain, ChainHead, ReadLines;
    var c' := c.(statements := c.statements + [DnatByMap(MAP_NAME)]);
    var file' := file.(chains := file.chains + [c']);
    MapRuleStep(c, file);
    BlankSteps(file, c');
    ReadTwo(Draft(InChain(c), file), MAP_RULE, Draft(InChain(c'), file), CLOSE, Draft(Body, file'));
    ChainHeadReads(file', "postrouting", "srcnat");
    ReadAppend(Some(Draft(InChain(c), file)), [MAP_RULE, CLOSE], ChainHead("postrouting", "srcnat"));
  }

  lemma TailReads(c: Chain, file: NftFile)
    ensures ReadLines(Some(Draft(InChain(c), file)), TAIL_LINES)
            == Some(Draft(Top, file.(chains := file.chains + [c])))
  {
    hide ReadBody, ReadInChain;
    var file' := file.(chains := file.chains + [c]);
    BlankSteps(file, c);
    BodySteps(file');
    ReadTwo(Draft(InChain(c), file), CLOSE, Draft(Body, file'), END, Draft(Top, file'));
  }

  // The lines of a ruleset make its file.
  lemma LinesRead(rs: Ruleset)
    requires ReadableRuleset(rs)
    ensures ReadLines(Some(START), Lines(rs)) == Some(Draft(Top, FileOf(rs)))
  {
    hide ReadLines, HeadLines, Mapped, GapLines;
    var head, es, fs := HeadLines(rs.table), Mapped(rs.elements, ElementLine), Mapped(rs.forwards, ForwardLine);
    var gap, ms := GapLines(rs), Mapped(rs.masquerades, MasqueradeLine);
    var file0 := NftFile(Some(rs.table), Some(rs.table), [], []);
    var m0 := AddrMap(MAP_NAME, MAP_KIND, []);
    var m := m0.(elements := m0.elements + rs.elements);
    var file1 := file0.(maps := file0.maps + [m]);
    var pre := Chain("prerouting", Some(PREROUTING_HOOK), []);
    var pre' := pre.(statements := pre.statements + DnatsOf(rs.forwards));
    var file2 := file1.(chains := file1.chains + [pre'.(statements := pre'.statements + [DnatByMap(MAP_NAME)])]);
    var post := Chain("postrouting", Some(POSTROUTING_HOOK), []);
    var post' := post.(statements := post.statements + MasqueradeRules(rs.masquerades));
    HeadReads(rs.table);
    ElementsRead(m0, file0, rs.elements);
    MiddleReads(m, file0);
    ForwardsRead(pre, file1, rs.forwards);
    GapReads(rs, pre', file1);
    MapRuleReads(pre', file1);
    MasqueradesRead(post, file2, rs.masquerades);
    TailReads(post', file2);
    var d := Some(START);
    ReadAppend(d, head, es);
    ReadAppend(d, head + es, MIDDLE_LINES);
    ReadAppend(d, head + es + MIDDLE_LINES, fs);
    ReadAppend(d, head + es + MIDDLE_LINES + fs, gap);
    ReadAppend(d, head + es + MIDDLE_LINES + fs + gap, MAP_LINES);
    ReadAppend(d, head + es + MIDDLE_LINES + fs + gap + MAP_LINES, ms);
    ReadAppend(d, head + es + MIDDLE_LINES + fs + gap + MAP_LINES + ms, TAIL_LINES);
    assert [] + rs.elements == rs.elements && [] + DnatsOf(rs.forwards) == DnatsOf(rs.forwards);
    assert [] + MasqueradeRules(rs.masquerades) == MasqueradeRules(rs.masquerades);
    assert file2.chains + [post'] == FileOf(rs).chains && file2.maps == FileOf(rs).maps;
  }

  // ---- No line holds a line break ----

  lemma {:induction false} MappedAt<T>(xs: seq<T>, f: T -> string)
    ensures |Mapped(xs, f)| == |xs|
    ensures forall i :: 0 <= i < |xs| ==> Mapped(xs, f)[i] == f(xs[i])
  {
    if xs != [] {
      MappedAt(xs[..|xs| - 1], f);
    }
  }

  lemma ElementWhole(e: Element)
    ensures '\n' !in ElementLine(e)
  {
    hide AddrText;
    AddrTextHasNo(e.key, '\n');
    AddrTextHasNo(e.target, '\n');
  }

  lemma ForwardWhole(f: Forward)
    requires Quotable(f.iif)
    ensures '\n' !in ForwardLine(f)
  {
    AddrTextHasNo(f.daddr, '\n');
    ForwardTailWhole(f);
  }

  lemma ForwardTailWhole(f: Forward)
    ensures '\n' !in ForwardTail(f)
  {
    hide Dec, AddrText;
    AddrTextHasNo(f.target, '\n');
    DigitsHave(Dec(f.dport), '\n');
    DigitsHave(Dec(f.targetPort), '\n');
  }

  lemma MasqueradeWhole(m: Masquerade)
    requires Quotable(m.oif)
    ensures '\n' !in MasqueradeLine(m)
  {
    hide Dec, AddrText;
    AddrTextHasNo(m.cidr.addr, '\n');
    DigitsHave(Dec(m.cidr.prefix), '\n');
  }

  ghost predicate Whole(lines: seq<string>) {
    forall i :: 0 <= i < |lines| ==> '\n' !in lines[i]
  }

  lemma {:induction false} MappedWhole<T>(xs: seq<T>, f: T -> string)
    requires forall i :: 0 <= i < |xs| ==> '\n' !in f(xs[i])
    ensures Whole(Mapped(xs, f))
  {
    MappedAt(xs, f);
  }

  lemma RuleLinesWhole(rs: Ruleset)
    requires ReadableRuleset(rs)
    ensures Whole(Mapped(rs.elements, ElementLine))
    ensures Whole(Mapped(rs.forwards, ForwardLine))
    ensures Whole(Mapped(rs.masquerades, MasqueradeLine))
  {
    hide Whole, Mapped, ElementLine, ForwardLine, MasqueradeLine;
    forall i | 0 <= i < |rs.elements| ensures '\n' !in ElementLine(rs.elements[i]) { ElementWhole(rs.elements[i]); }
    forall i | 0 <= i < |rs.forwards| ensures '\n' !in ForwardLine(rs.forwards[i]) { ForwardWhole(rs.forwards[i]); }
    forall i | 0 <= i < |rs.masquerades| ensures '\n' !in MasqueradeLine(rs.masquerades[i]) {
      MasqueradeWhole(rs.masquerades[i]);
    }
    MappedWhole(rs.elements, ElementLine);
    MappedWhole(rs.forwards, ForwardLine);
    MappedWhole(rs.masquerades, MasqueradeLine);
  }

  lemma WholeAppend(x: seq<string>, y: seq<string>)
    requires Whole(x) && Whole(y)
    ensures Whole(x + y)
  {
  }

  lemma FixedLinesWhole(table: string)
    requires '\n' !in table
    ensures Whole(HeadLines(table))
    ensures Whole([ELEMENTS_CLOSE, CLOSE]) && Whole([MAP_RULE, CLOSE])
    ensures Whole(TAIL_LINES) && Whole([""])
  {
  }

  lemma ChainHeadWhole(hook: string, priority: string)
    requires '\n' !in hook && '\n' !in priority
    ensures Whole(ChainHead(hook, priority))
  {
    assert '\n' !in HookTail(priority);
    assert '\n' !in HookLine(hook, priority) && '\n' !in ChainLine(hook);
  }

  lemma PartsWhole(rs: Ruleset)
    requires ReadableRuleset(rs)
    ensures Whole(HeadLines(rs.table)) && Whole(MIDDLE_LINES) && Whole(GapLines(rs))
    ensures Whole(MAP_LINES) && Whole(TAIL_LINES)
  {
    hide Whole, ChainHead, HeadLines;
    FixedLinesWhole(rs.table);
    ChainHeadWhole("prerouting", "dstnat");
    ChainHeadWhole("postrouting", "srcnat");
    WholeAppend([ELEMENTS_CLOSE, CLOSE], ChainHead("prerouting", "dstnat"));
    WholeAppend([MAP_RULE, CLOSE], ChainHead("postrouting", "srcnat"));
    GapWhole(rs);
  }

  lemma GapWhole(rs: Ruleset)
    ensures Whole(GapLines(rs))
  {
  }

  lemma LinesWhole(rs: Ruleset)
    requires ReadableRuleset(rs)
    ensures SplitLines(RulesetText(rs)) == Lines(rs)
  {
    hide Whole, HeadLines, Mapped, GapLines;
    var head, es, fs := HeadLines(rs.table), Mapped(rs.elements, ElementLine), Mapped(rs.forwards, ForwardLine);
    var ms := Mapped(rs.masquerades, MasqueradeLine);
    PartsWhole(rs);
    RuleLinesWhole(rs);
    WholeAppend(head, es);
    WholeAppend(head + es, MIDDLE_LINES);
    WholeAppend(head + es + MIDDLE_LINES, fs);
    WholeAppend(head + es + MIDDLE_LINES + fs, GapLines(rs));
    WholeAppend(head + es + MIDDLE_LINES + fs + GapLines(rs), MAP_LINES);
    WholeAppend(head + es + MIDDLE_LINES + fs + GapLines(rs) + MAP_LINES, ms);
    WholeAppend(head + es + MIDDLE_LINES + fs + GapLines(rs) + MAP_LINES + ms, TAIL_LINES);
    WholeSplits(rs);
  }

  lemma WholeSplits(rs: Ruleset)
    requires Whole(Lines(rs))
    ensures SplitLines(RulesetText(rs)) == Lines(rs)
  {
    SplitJoin(Lines(rs));
  }

  // ---- Results ----

  // The text of a ruleset is read as its file.
  lemma ReadsFile(rs: Ruleset)
    requires ReadableRuleset(rs)
    ensures ReadFile(RulesetText(rs)) == Some(FileOf(rs))
  {
    hide ReadLines, Lines;
    LinesWhole(rs);
    LinesRead(rs);
  }

  lemma FileIsNamed(rs: Ruleset)
    ensures FileOf(rs).table == FileOf(rs).destroyed == Some(rs.table)
  {
  }

  // The file does to packets what the ruleset does.
  lemma FileRuns(rs: Ruleset, p: Packet, oif: string, ip: Addr)
    ensures Prerouting(FileOf(rs), p) == Translate(rs, p)
    ensures Postrouting(FileOf(rs), oif, ip) <==> Masqueraded(rs, oif, ip)
  {
    hide FileOf, RulesetOf, Prerouting, Postrouting, Translate, Masqueraded;
    FileOfIsRead(rs);
    RulesetRuns(FileOf(rs), p, oif, ip);
  }

  // The reader recovers the ruleset from its text.
  lemma ReadsBack(rs: Ruleset)
    requires ReadableRuleset(rs)
    ensures ReadRuleset(RulesetText(rs)) == Some(rs)
  {
    hide ReadFile, RulesetText, RulesetOf;
    ReadsFile(rs);
    FileOfIsRead(rs);
  }

  // Rulesets with the same text are the same ruleset.
  lemma TextDeterminesRuleset(rs: Ruleset, other: Ruleset)
    requires ReadableRuleset(rs) && ReadableRuleset(other)
    requires RulesetText(rs) == RulesetText(other)
    ensures rs == other
  {
    ReadsBack(rs);
    ReadsBack(other);
  }

  lemma CompiledIsReadable(ms: seq<Mapping>, config: EdgeConfig, table: string)
    requires Quotable(config.wan) && Quotable(config.netbird) && '\n' !in table
    ensures ReadableRuleset(Compile(ms, config, table))
  {
    var fs := Forwards(ms, config.wan);
    forall f | f in fs
      ensures f.iif == config.wan
    {
      ForwardsMembers(ms, config.wan, f);
    }
    MasqueradesAt(config.targetCidrs, config.netbird);
  }
}
