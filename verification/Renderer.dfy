// The renderer, and what the text that it renders does to packets.
module Renderer {
  import opened Wrappers
  import opened Addresses
  import opened Mappings
  import opened Validation
  import opened Ruleset
  import opened Text
  import opened Render
  import opened NftFiles
  import opened ReadBack

  // ---- What a rendered text does ----

  // Read as an nft file, the text replaces its table by one that translates each packet as the row
  // prescribes that claims it, leaves the others alone, and translates the source of exactly what
  // leaves on the NetBird interface for a configured network.
  ghost predicate TextGoverns(text: string, ms: seq<Mapping>, config: EdgeConfig) {
    && ReadFile(text).Some?
    && var file := ReadFile(text).value;
       && file.table.Some? && file.destroyed == file.table
       && (forall m, p :: m in ms && Claims(m, config.wan, p) ==> Prerouting(file, p) == Destination(m, p))
       && (forall p :: (forall m :: m in ms ==> !Claims(m, config.wan, p)) ==> Prerouting(file, p) == Untouched)
       && (forall oif, ip :: Postrouting(file, oif, ip) <==> oif == config.netbird && ContainsTarget(config, ip))
  }

  lemma MasqueradedExactly(ms: seq<Mapping>, config: EdgeConfig, table: string, oif: string, ip: Addr)
    ensures Masqueraded(Compile(ms, config, table), oif, ip) <==> oif == config.netbird && ContainsTarget(config, ip)
  {
    MasqueradesAt(config.targetCidrs, config.netbird);
    var rules := Compile(ms, config, table).masquerades;
    if oif == config.netbird && ContainsTarget(config, ip) {
      var i :| 0 <= i < |config.targetCidrs| && Contains(config.targetCidrs[i], ip);
      assert rules[i] == Masquerade(oif, config.targetCidrs[i]);
    }
  }

  lemma AcceptedTextGoverns(ms: seq<Mapping>, config: EdgeConfig, table: string)
    requires Accepts(ms, config)
    requires Quotable(config.wan) && Quotable(config.netbird) && '\n' !in table
    ensures TextGoverns(RulesetText(Compile(ms, config, table)), ms, config)
  {
    hide Accepts, Compile, RulesetText, ReadFile, FileOf, Prerouting, Postrouting, Translate, Masqueraded, Claims;
    hide ReadableRuleset, ContainsTarget;
    var rs := Compile(ms, config, table);
    CompiledIsReadable(ms, config, table);
    ReadsFile(rs);
    FileIsNamed(rs);
    forall p: Packet
      ensures Prerouting(FileOf(rs), p) == Translate(rs, p)
      ensures forall m :: m in ms && Claims(m, config.wan, p) ==> Translate(rs, p) == Destination(m, p)
      ensures (forall m :: m in ms ==> !Claims(m, config.wan, p)) ==> Translate(rs, p) == Untouched
    {
      FileRuns(rs, p, "", Addr(0, 0, 0, 0));
      CompileCorrect(ms, config, table, p);
    }
    forall oif, ip
      ensures Postrouting(FileOf(rs), oif, ip) <==> oif == config.netbird && ContainsTarget(config, ip)
    {
      FileRuns(rs, Packet("", 0, ip, 0), oif, ip);
      MasqueradedExactly(ms, config, table, oif, ip);
    }
  }

  // ---- The renderer ----

  lemma CompiledParts(ms: seq<Mapping>, config: EdgeConfig, table: string)
    ensures Compile(ms, config, table)
            == Ruleset(table, Elements(ms), Forwards(ms, config.wan), Masquerades(config.targetCidrs, config.netbird))
  {
  }

  lemma JoinSnoc(lines: seq<string>, line: string)
    ensures JoinLines(lines + [line]) == JoinLines(lines) + line + "\n"
  {
  }

  // Appends one line for each item.
  method PushLines<T>(output: string, ghost lines: seq<string>, items: seq<T>, line: T -> string)
    returns (output': string, ghost lines': seq<string>)
    requires output == JoinLines(lines)
    ensures output' == JoinLines(lines')
    ensures lines' == lines + Mapped(items, line)
  {
    output', lines' := output, lines;
    for i := 0 to |items|
      invariant lines' == lines + Mapped(items[..i], line)
      invariant output' == JoinLines(lines')
    {
      assert items[..i + 1][..i] == items[..i];
      JoinSnoc(lines', line(items[i]));
      output' := output' + line(items[i]) + "\n";
      lines' := lines' + [line(items[i])];
    }
    assert items[..|items|] == items;
  }

  // The port-forward rules. The ports come from validated mappings, so both are present.
  method CollectForwards(ms: seq<Mapping>, config: EdgeConfig) returns (fs: seq<Forward>)
    requires AllValid(ms, config)
    ensures fs == Forwards(ms, config.wan)
    ensures forall f :: f in fs ==> f.protocol != All
  {
    hide ValidateMapping;
    fs := [];
    for i := 0 to |ms|
      invariant fs == Forwards(ms[..i], config.wan)
      invariant forall f :: f in fs ==> f.protocol != All
    {
      assert ms[..i + 1] == ms[..i] + [ms[i]];
      CompileSnoc(ms[..i], ms[i], config.wan);
      var m := ms[i];
      if IsForward(m) {
        assert ValidMapping(m, config);
        ValidPortForwardHasPort(m, config);
        fs := fs + [Forward(config.wan, m.edgeIp, m.protocol, m.publicPort.value, m.targetIp, m.targetPort.value)];
      }
    }
    assert ms[..|ms|] == ms;
  }

  lemma {:induction false} MappedSame(lines: seq<string>)
    ensures Mapped(lines, (line: string) => line) == lines
  {
    if lines != [] {
      MappedSame(lines[..|lines| - 1]);
    }
  }

  method PushText(output: string, ghost lines: seq<string>, text: seq<string>)
    returns (output': string, ghost lines': seq<string>)
    requires output == JoinLines(lines)
    ensures output' == JoinLines(lines')
    ensures lines' == lines + text
  {
    MappedSame(text);
    output', lines' := PushLines(output, lines, text, (line: string) => line);
  }

  method RenderNftables(ms: seq<Mapping>, config: EdgeConfig, table: string)
    returns (r: Result<string, Error>)
    ensures r.Success? <==> Accepts(ms, config)
    ensures r.Success? ==> r.value == RulesetText(Compile(ms, config, table))
    ensures r.Failure? ==> Explains(ms, config, r.error)
    ensures r.Success? && Quotable(config.wan) && Quotable(config.netbird) && '\n' !in table ==>
              TextGoverns(r.value, ms, config)
  {
    hide ValidateMapping, RulesetText, AllValid, ClashFree, TextGoverns, Compile;
    var checked := ValidateMappings(ms, config);
    if checked.Fail? {
      return Failure(checked.error);
    }
    var elements, masquerades := Elements(ms), Masquerades(config.targetCidrs, config.netbird);
    var forwards := CollectForwards(ms, config);
    var output := RenderRuleset(Ruleset(table, elements, forwards, masquerades));
    CompiledParts(ms, config, table);
    if Quotable(config.wan) && Quotable(config.netbird) && '\n' !in table {
      AcceptedTextGoverns(ms, config, table);
    }
    return Success(output);
  }

  method RenderRuleset(rs: Ruleset) returns (output: string)
    ensures output == RulesetText(rs)
  {
    output := RenderParts(rs, HeadLines(rs.table), MIDDLE_LINES, MAP_LINES, TAIL_LINES);
  }

  method RenderParts(rs: Ruleset, head: seq<string>, middle: seq<string>, mapRule: seq<string>, tail: seq<string>)
    returns (output: string)
    ensures output == JoinLines(
                        head + Mapped(rs.elements, ElementLine) + middle + Mapped(rs.forwards, ForwardLine)
                        + GapLines(rs) + mapRule + Mapped(rs.masquerades, MasqueradeLine) + tail)
  {
    ghost var lines: seq<string>;
    output, lines := PushText("", [], head);
    assert lines == head;
    output, lines := PushLines(output, lines, rs.elements, ElementLine);
    output, lines := PushText(output, lines, middle);
    output, lines := PushLines(output, lines, rs.forwards, ForwardLine);
    ghost var before := lines;
    if rs.elements == [] {
      output, lines := PushText(output, lines, [""]);
    }
    assert lines == before + GapLines(rs);
    output, lines := PushText(output, lines, mapRule);
    output, lines := PushLines(output, lines, rs.masquerades, MasqueradeLine);
    output, lines := PushText(output, lines, tail);
  }
}
