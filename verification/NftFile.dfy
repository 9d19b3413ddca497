// An nft file read line by line, and what the table it loads does to a packet.
module NftFiles {
  import opened Wrappers
  import opened Addresses
  import opened Mappings
  import opened Ruleset
  import opened Text

  datatype Statement =
    | Dnat(rule: Forward)
    | DnatByMap(name: string)
    | MasqueradeTo(out: Masquerade)

  datatype Hook = Hook(kind: string, name: string, priority: string, policy: string)

  datatype Chain = Chain(name: string, hook: Option<Hook>, statements: seq<Statement>)

  datatype AddrMap = AddrMap(name: string, kind: string, elements: seq<Element>)

  // The table that the file destroys, the one that it creates, and what is in that.
  datatype NftFile = NftFile(
    destroyed: Option<string>, table: Option<string>, maps: seq<AddrMap>, chains: seq<Chain>)

  // ---- Lines ----

  // Lines are told apart by the character after eight columns of indentation.
  function Class(line: string): char {
    if |line| > 8 && line[0] == ' ' then line[8] else '-'
  }

  function Strip(prefix: string, line: string): Option<string> {
    if prefix <= line then Some(line[|prefix|..]) else None
  }

  // The text up to `c` after `prefix`, and what follows `c`.
  function Field(prefix: string, line: string, c: char): Option<(string, string)> {
    match Strip(prefix, line)
    case None => None
    case Some(rest) => Cut(rest, c)
  }

  // The name between `prefix` and an opening brace.
  function Opened(prefix: string, line: string): Option<string> {
    match Strip(prefix, line)
    case None => None
    case Some(rest) => if |rest| >= 2 && rest[|rest| - 2..] == " {" then Some(rest[..|rest| - 2]) else None
  }

  function ReadPort(s: string): Option<Port> {
    match ParseDec(s, 65536)
    case Some(n) => if n < 65536 then Some(n) else None
    case None => None
  }

  function ReadProtocol(s: string): Option<Protocol> {
    if s == "tcp" then Some(Tcp) else if s == "udp" then Some(Udp) else if s == "all" then Some(All) else None
  }

  function ReadElement(line: string): Option<Element> {
    match Field("            ", line, ' ')
    case None => None
    case Some((key, rest)) =>
      match Field(": ", rest, ',')
      case None => None
      case Some((target, rest)) =>
        match (ParseAddr(key), ParseAddr(target))
        case (Some(key), Some(target)) => if rest == "" then Some(Element(key, target)) else None
        case _ => None
  }

  function ReadForward(line: string): Option<Statement> {
    match Field("        iifname \"", line, '"')
    case None => None
    case Some((iif, rest)) =>
      match Field(" ip daddr ", rest, ' ')
      case None => None
      case Some((daddr, rest)) => ReadForwardTail(iif, daddr, rest)
  }

  function ReadForwardTail(iif: string, daddr: string, line: string): Option<Statement> {
    match Cut(line, ' ')
    case None => None
    case Some((protocol, rest)) =>
      match Field("dport ", rest, ' ')
      case None => None
      case Some((dport, rest)) =>
        match Field("dnat to ", rest, ':')
        case None => None
        case Some((target, targetPort)) =>
          match (ParseAddr(daddr), ReadProtocol(protocol), ReadPort(dport), ParseAddr(target), ReadPort(targetPort))
          case (Some(daddr), Some(protocol), Some(dport), Some(target), Some(targetPort)) =>
            Some(Dnat(Forward(iif, daddr, protocol, dport, target, targetPort)))
          case _ => None
  }

  function ReadMasquerade(line: string): Option<Statement> {
    match Field("        oifname \"", line, '"')
    case None => None
    case Some((oif, rest)) =>
      match Field(" ip daddr ", rest, '/')
      case None => None
      case Some((addr, rest)) => ReadMasqueradeTail(oif, addr, rest)
  }

  function ReadMasqueradeTail(oif: string, addr: string, line: string): Option<Statement> {
    match Cut(line, ' ')
    case None => None
    case Some((prefix, verb)) =>
      match (ParseAddr(addr), ParseDec(prefix, 33))
      case (Some(addr), Some(prefix)) =>
        if prefix <= 32 && verb == "masquerade" then Some(MasqueradeTo(Masquerade(oif, Cidr(addr, prefix)))) else None
      case _ => None
  }

  function ReadMapRule(line: string): Option<Statement> {
    match Strip("        dnat to ip daddr map @", line)
    case None => None
    case Some(name) => Some(DnatByMap(name))
  }

  function ReadStatement(line: string): Option<Statement> {
    if Class(line) == 'i' then ReadForward(line)
    else if Class(line) == 'o' then ReadMasquerade(line)
    else if Class(line) == 'd' then ReadMapRule(line)
    else None
  }

  function ReadHook(line: string): Option<Hook> {
    match Field("        type ", line, ' ')
    case None => None
    case Some((kind, rest)) =>
      match Field("hook ", rest, ' ')
      case None => None
      case Some((name, rest)) =>
        match Field("priority ", rest, ';')
        case None => None
        case Some((priority, rest)) =>
          match Field(" policy ", rest, ';')
          case None => None
          case Some((policy, rest)) => if rest == "" then Some(Hook(kind, name, priority, policy)) else None
  }

  // ---- Files ----

  // Where the reader stands: outside the table, in it, in a map, among its elements, or in a chain.
  datatype Place =
    | Top
    | Body
    | InMap(map_: AddrMap)
    | InElements(map_: AddrMap)
    | InChain(chain: Chain)

  datatype Draft = Draft(place: Place, file: NftFile)

  const START := Draft(Top, NftFile(None, None, [], []))

  function ReadTop(file: NftFile, line: string): Option<Draft> {
    if line == "" then Some(Draft(Top, file))
    else if file.table.Some? then None
    else match Strip("destroy table ip ", line)
      case Some(name) => Some(Draft(Top, file.(destroyed := Some(name))))
      case None =>
        match Opened("table ip ", line)
        case Some(name) => Some(Draft(Body, file.(table := Some(name))))
        case None => None
  }

  function ReadBody(file: NftFile, line: string): Option<Draft> {
    if line == "" then Some(Draft(Body, file))
    else if line == "}" then Some(Draft(Top, file))
    else match Opened("    map ", line)
      case Some(name) => Some(Draft(InMap(AddrMap(name, "", [])), file))
      case None =>
        match Opened("    chain ", line)
        case Some(name) => Some(Draft(InChain(Chain(name, None, [])), file))
        case None => None
  }

  function ReadInMap(m: AddrMap, file: NftFile, line: string): Option<Draft> {
    if line == "    }" then Some(Draft(Body, file.(maps := file.maps + [m])))
    else if Class(line) == 'e' then
      if line == "        elements = {" then Some(Draft(InElements(m), file)) else None
    else match Field("        type ", line, ';')
      case Some((kind, rest)) => if rest == "" then Some(Draft(InMap(m.(kind := kind)), file)) else None
      case None => None
  }

  function ReadInElements(m: AddrMap, file: NftFile, line: string): Option<Draft> {
    if line == "        }" then Some(Draft(InMap(m), file))
    else match ReadElement(line)
      case Some(e) => Some(Draft(InElements(m.(elements := m.elements + [e])), file))
      case None => None
  }

  function ReadInChain(c: Chain, file: NftFile, line: string): Option<Draft> {
    if line == "" then Some(Draft(InChain(c), file))
    else if line == "    }" then Some(Draft(Body, file.(chains := file.chains + [c])))
    else if Class(line) == 't' then
      match ReadHook(line)
      case Some(hook) => if c.hook.None? then Some(Draft(InChain(c.(hook := Some(hook))), file)) else None
      case None => None
    else match ReadStatement(line)
      case Some(s) => Some(Draft(InChain(c.(statements := c.statements + [s])), file))
      case None => None
  }

  function ReadLine(d: Draft, line: string): Option<Draft> {
    match d.place
    case Top => ReadTop(d.file, line)
    case Body => ReadBody(d.file, line)
    case InMap(m) => ReadInMap(m, d.file, line)
    case InElements(m) => ReadInElements(m, d.file, line)
    case InChain(c) => ReadInChain(c, d.file, line)
  }

  function ReadLines(d: Option<Draft>, lines: seq<string>): Option<Draft> {
    if lines == [] then d
    else match ReadLines(d, lines[..|lines| - 1])
      case Some(d') => ReadLine(d', lines[|lines| - 1])
      case None => None
  }

  function ReadFile(text: string): Option<NftFile> {
    match ReadLines(Some(START), SplitLines(text))
    case Some(d) => if d.place == Top && d.file.table.Some? then Some(d.file) else None
    case None => None
  }

  // ---- Running a packet through what was read ----

  function MapNamed(maps: seq<AddrMap>, name: string): Option<AddrMap> {
    if maps == [] then None else if maps[0].name == name then Some(maps[0]) else MapNamed(maps[1..], name)
  }

  // The statements in order: the first one that translates ends the chain, and one that does not
  // match, or a lookup that misses, leads to the next.
  function RunDnat(statements: seq<Statement>, maps: seq<AddrMap>, p: Packet): Verdict {
    if statements == [] then Untouched
    else
      match statements[0]
      case Dnat(f) => if Matches(f, p) then Rewritten(f.target, f.targetPort) else RunDnat(statements[1..], maps, p)
      case DnatByMap(name) =>
        (match MapNamed(maps, name)
         case None => RunDnat(statements[1..], maps, p)
         case Some(m) =>
           match Lookup(m.elements, p.daddr)
           case Some(target) => Rewritten(target, p.dport)
           case None => RunDnat(statements[1..], maps, p))
      case MasqueradeTo(_) => RunDnat(statements[1..], maps, p)
  }

  // The statements of the first chain at the hook.
  function StatementsAt(chains: seq<Chain>, hook: Hook): seq<Statement> {
    if chains == [] then []
    else if chains[0].hook == Some(hook) then chains[0].statements
    else StatementsAt(chains[1..], hook)
  }

  // What happens to a packet on its way in, where destination addresses are translated.
  function Prerouting(file: NftFile, p: Packet): Verdict {
    RunDnat(StatementsAt(file.chains, Hook("nat", "prerouting", "dstnat", "accept")), file.maps, p)
  }

  // Whether a packet to `ip` that leaves on `oif` gets its source translated on its way out.
  predicate Postrouting(file: NftFile, oif: string, ip: Addr) {
    var statements := StatementsAt(file.chains, Hook("nat", "postrouting", "srcnat", "accept"));
    exists i :: 0 <= i < |statements| && statements[i].MasqueradeTo?
                && statements[i].out.oif == oif && Contains(statements[i].out.cidr, ip)
  }
}
