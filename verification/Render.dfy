// The text form of a ruleset.
module Render {
  import opened Mappings
  import opened Ruleset
  import opened Text

  const TABLE_NAME := "edge_nat"

  const MAP_NAME := "edge_to_target"

  const ELEMENTS_OPEN := "        elements = {"
  const ELEMENTS_CLOSE := "        }"
  const CLOSE := "    }"
  const END := "}"

  function DestroyLine(table: string): string {
    "destroy table ip " + table
  }

  function TableLine(table: string): string {
    "table ip " + (table + " {")
  }

  const MAP_OPEN := "    map " + (MAP_NAME + " {")
  const MAP_TYPE := "        type " + ("ipv4_addr : ipv4_addr" + [';'] + "")
  const MAP_RULE := "        dnat to ip daddr map @" + MAP_NAME

  function ChainLine(name: string): string {
    "    chain " + (name + " {")
  }

  // The line that attaches a chain to a hook.
  function HookLine(hook: string, priority: string): string {
    "        type " + ("nat" + [' '] + ("hook " + (hook + [' '] + HookTail(priority))))
  }

  function HookTail(priority: string): string {
    "priority " + (priority + [';'] + (" policy " + ("accept" + [';'] + "")))
  }

  function ElementLine(e: Element): string {
    "            " + (AddrText(e.key) + [' '] + (": " + (AddrText(e.target) + [','] + "")))
  }

  function ForwardLine(f: Forward): string {
    "        iifname \"" + (f.iif + ['"'] + (" ip daddr " + (AddrText(f.daddr) + [' '] + ForwardTail(f))))
  }

  function ForwardTail(f: Forward): string {
    ProtocolName(f.protocol) + [' ']
    + ("dport " + (Dec(f.dport) + [' '] + ("dnat to " + (AddrText(f.target) + [':'] + Dec(f.targetPort)))))
  }

  function MasqueradeLine(m: Masquerade): string {
    "        oifname \"" + (m.oif + ['"'] + (" ip daddr " + (AddrText(m.cidr.addr) + ['/'] + MasqueradeTail(m))))
  }

  function MasqueradeTail(m: Masquerade): string {
    Dec(m.cidr.prefix) + [' '] + "masquerade"
  }

  function Mapped<T>(xs: seq<T>, f: T -> string): seq<string> {
    if xs == [] then [] else Mapped(xs[..|xs| - 1], f) + [f(xs[|xs| - 1])]
  }

  function HeadLines(table: string): seq<string> {
    [DestroyLine(table), "", TableLine(table), MAP_OPEN, MAP_TYPE, ELEMENTS_OPEN]
  }

  // A chain up to its rules; it is named after its hook.
  function ChainHead(hook: string, priority: string): seq<string> {
    ["", ChainLine(hook), HookLine(hook, priority), ""]
  }

  const MIDDLE_LINES := [ELEMENTS_CLOSE, CLOSE] + ChainHead("prerouting", "dstnat")

  const MAP_LINES := [MAP_RULE, CLOSE] + ChainHead("postrouting", "srcnat")

  const TAIL_LINES := [CLOSE, END]

  // A blank line stands before the map rule when the map is empty.
  function GapLines(rs: Ruleset): seq<string> {
    if rs.elements == [] then [""] else []
  }

  function Lines(rs: Ruleset): seq<string> {
    HeadLines(rs.table) + Mapped(rs.elements, ElementLine) + MIDDLE_LINES + Mapped(rs.forwards, ForwardLine)
    + GapLines(rs) + MAP_LINES + Mapped(rs.masquerades, MasqueradeLine) + TAIL_LINES
  }

  function RulesetText(rs: Ruleset): string {
    JoinLines(Lines(rs))
  }

  function RulesText(ms: seq<Mapping>, config: EdgeConfig): string {
    RulesetText(Compile(ms, config, TABLE_NAME))
  }
}
