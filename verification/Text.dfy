// Strings: trimming, decimal numbers, dotted addresses and lines.
module Text {
  import opened Wrappers
  import opened Addresses

  // The Unicode White_Space characters.
  predicate IsWhitespace(c: char) {
    var n := c as int;
    || 9 <= n <= 13 || n == 0x20 || n == 0x85 || n == 0xA0 || n == 0x1680
    || 0x2000 <= n <= 0x200A || n == 0x2028 || n == 0x2029 || n == 0x202F || n == 0x205F || n == 0x3000
  }

  function TrimStart(s: string): string {
    if s != "" && IsWhitespace(s[0]) then TrimStart(s[1..]) else s
  }

  function TrimEnd(s: string): string {
    if s != "" && IsWhitespace(s[|s| - 1]) then TrimEnd(s[..|s| - 1]) else s
  }

  function Trim(s: string): string {
    TrimEnd(TrimStart(s))
  }

  predicate Blank(s: string) {
    forall c :: c in s ==> IsWhitespace(c)
  }

  // The core of a text: blank before it, blank after it, and no whitespace at either end of it.
  ghost predicate TrimsTo(s: string, core: string) {
    exists before, after :: Around(s, before, core, after)
  }

  predicate Around(s: string, before: string, core: string, after: string) {
    && s == before + core + after && Blank(before) && Blank(after)
    && (core != "" ==> !IsWhitespace(core[0]) && !IsWhitespace(core[|core| - 1]))
  }

  lemma {:induction false} TrimStartSplits(s: string) returns (before: string)
    ensures s == before + TrimStart(s) && Blank(before)
    ensures TrimStart(s) != "" ==> !IsWhitespace(TrimStart(s)[0])
  {
    before := "";
    if s != "" && IsWhitespace(s[0]) {
      var rest := TrimStartSplits(s[1..]);
      before := [s[0]] + rest;
    }
  }

  lemma {:induction false} TrimEndSplits(s: string) returns (after: string)
    ensures s == TrimEnd(s) + after && Blank(after)
    ensures TrimEnd(s) != "" ==> !IsWhitespace(TrimEnd(s)[|TrimEnd(s)| - 1])
  {
    after := "";
    if s != "" && IsWhitespace(s[|s| - 1]) {
      var rest := TrimEndSplits(s[..|s| - 1]);
      after := rest + [s[|s| - 1]];
    }
  }

  lemma EmptyCore(s: string, before: string, core: string, after: string)
    requires Around(s, before, core, after)
    ensures core == "" <==> Blank(s)
  {
    if core != "" {
      assert s[|before|] == core[0];
    }
  }

  lemma CoreUnique(s: string, before: string, core: string, after: string,
                   before': string, core': string, after': string)
    requires Around(s, before, core, after) && Around(s, before', core', after')
    ensures core == core'
  {
    EmptyCore(s, before, core, after);
    EmptyCore(s, before', core', after');
    if core != "" && core' != "" {
      var n, n' := |before|, |before'|;
      assert s[n] == core[0] && s[n'] == core'[0];
      var e, e' := n + |core|, n' + |core'|;
      assert s[e - 1] == core[|core| - 1] && s[e' - 1] == core'[|core'| - 1];
      assert n == n' && e == e';
      assert core == s[n..e] && core' == s[n'..e'];
    }
  }

  // Trimming gives the one core.
  lemma TrimExact(s: string, core: string)
    ensures Trim(s) == core <==> TrimsTo(s, core)
  {
    var before := TrimStartSplits(s);
    var inner := TrimStart(s);
    var after := TrimEndSplits(inner);
    assert Trim(s) != "" ==> Trim(s)[0] == inner[0];
    assert Around(s, before, Trim(s), after);
    if TrimsTo(s, core) {
      var before', after' :| Around(s, before', core, after');
      CoreUnique(s, before, Trim(s), after, before', core, after');
    }
  }

  // Lexicographic order of code points, as SQLite compares TEXT.
  predicate Less(x: string, y: string) {
    y != "" && (x == "" || x[0] < y[0] || (x[0] == y[0] && Less(x[1..], y[1..])))
  }

  lemma {:induction false} LessTotal(x: string, y: string)
    ensures x == y || Less(x, y) || Less(y, x)
    ensures !(Less(x, y) && (x == y || Less(y, x)))
  {
    if x != "" && y != "" {
      LessTotal(x[1..], y[1..]);
      if x[0] == y[0] && x[1..] == y[1..] {
        assert x == [x[0]] + x[1..] == [y[0]] + y[1..] == y;
      }
    }
  }

  // The texts agree up to a place where the first ends or has the smaller character.
  ghost predicate Precedes(x: string, y: string) {
    exists n :: PartAt(x, y, n)
  }

  predicate PartAt(x: string, y: string, n: int) {
    && 0 <= n <= |x| && n < |y| && (n < |x| ==> x[n] < y[n])
    && forall i :: 0 <= i < n ==> x[i] == y[i]
  }

  lemma {:induction false} LessExact(x: string, y: string)
    ensures Less(x, y) <==> Precedes(x, y)
  {
    if x == "" || y == "" || x[0] != y[0] {
      assert y != "" && (x == "" || x[0] < y[0]) ==> PartAt(x, y, 0);
    } else {
      var x', y' := x[1..], y[1..];
      LessExact(x', y');
      if n :| PartAt(x', y', n) {
        assert forall i :: 0 < i <= n ==> x[i] == x'[i - 1] && y[i] == y'[i - 1];
        assert PartAt(x, y, n + 1);
      }
      if n :| PartAt(x, y, n) {
        assert PartAt(x', y', n - 1);
      }
    }
  }

  lemma {:induction false} LessTransitive(x: string, y: string, z: string)
    requires Less(x, y) && Less(y, z)
    ensures Less(x, z)
  {
    if x != "" && x[0] == y[0] == z[0] {
      LessTransitive(x[1..], y[1..], z[1..]);
    }
  }

  // ---- Decimal numbers ----

  predicate IsDigit(c: char) {
    '0' <= c <= '9'
  }

  predicate AllDigits(s: string) {
    forall i :: 0 <= i < |s| ==> IsDigit(s[i])
  }

  function Digit(n: nat): (c: char)
    requires n < 10
    ensures IsDigit(c) && c as int == n + 48
  {
    (n + 48) as char
  }

  function Dec(n: nat): (s: string)
    ensures s != "" && AllDigits(s)
    ensures n > 0 ==> s[0] != '0'
    ensures |s| > 1 ==> n >= 10
  {
    if n < 10 then [Digit(n)] else Dec(n / 10) + [Digit(n % 10)]
  }

  function Value(s: string): nat
    requires AllDigits(s)
  {
    if s == "" then 0 else Value(s[..|s| - 1]) * 10 + (s[|s| - 1] as int - 48)
  }

  // A canonical decimal below `limit`: no sign, no leading zero.
  function ParseDec(s: string, limit: nat): Option<nat> {
    if s != "" && AllDigits(s) && (|s| > 1 ==> s[0] != '0') && Value(s) < limit then Some(Value(s))
    else None
  }

  lemma {:induction false} ValueOfDec(n: nat)
    ensures Value(Dec(n)) == n
  {
    if n >= 10 {
      ValueOfDec(n / 10);
      assert Dec(n)[..|Dec(n)| - 1] == Dec(n / 10);
    }
  }

  lemma {:induction false} DecOfValue(s: string)
    requires s != "" && AllDigits(s) && (|s| > 1 ==> s[0] != '0')
    ensures Dec(Value(s)) == s
    ensures s[0] != '0' ==> Value(s) > 0
  {
    var front, last := s[..|s| - 1], s[|s| - 1];
    assert s == front + [last];
    if |s| > 1 {
      DecOfValue(front);
      assert Value(s) / 10 == Value(front) && Value(s) % 10 == last as int - 48;
    } else {
      assert Value(front) == 0;
    }
  }

  // Reading inverts printing, and only a printed number is read.
  lemma ParseDecExact(s: string, limit: nat, n: nat)
    ensures ParseDec(s, limit) == Some(n) <==> n < limit && s == Dec(n)
  {
    ValueOfDec(n);
    if ParseDec(s, limit).Some? {
      DecOfValue(s);
    }
  }

  // ---- Cutting at a separator ----

  // The text before the first `c` and the text after it.
  function Cut(s: string, c: char): Option<(string, string)> {
    if s == "" then None
    else if s[0] == c then Some(("", s[1..]))
    else match Cut(s[1..], c)
      case None => None
      case Some(parts) => Some(([s[0]] + parts.0, parts.1))
  }

  lemma {:induction false} CutAtFirst(x: string, c: char, y: string)
    requires c !in x
    ensures Cut(x + [c] + y, c) == Some((x, y))
  {
    var s := x + [c] + y;
    if x == "" {
      assert s[1..] == y;
    } else {
      CutAtFirst(x[1..], c, y);
      assert s[1..] == x[1..] + [c] + y;
      assert [x[0]] + x[1..] == x;
    }
  }

  lemma {:induction false} CutExact(s: string, c: char)
    ensures match Cut(s, c)
            case None => c !in s
            case Some(parts) => c !in parts.0 && s == parts.0 + [c] + parts.1
  {
    if s != "" && s[0] != c {
      CutExact(s[1..], c);
      assert s == [s[0]] + s[1..];
    }
  }

  // ---- Dotted-decimal addresses ----

  function AddrText(ip: Addr): string {
    Dec(ip.a) + ['.'] + (Dec(ip.b) + ['.'] + (Dec(ip.c) + ['.'] + Dec(ip.d)))
  }

  function ParseAddr(s: string): Option<Addr> {
    match Cut(s, '.')
    case None => None
    case Some((a, rest)) =>
      match Cut(rest, '.')
      case None => None
      case Some((b, rest)) =>
        match Cut(rest, '.')
        case None => None
        case Some((c, d)) =>
          match (ParseDec(a, 256), ParseDec(b, 256), ParseDec(c, 256), ParseDec(d, 256))
          case (Some(a), Some(b), Some(c), Some(d)) => AddrOf(a, b, c, d)
          case _ => None
  }

  function AddrOf(a: nat, b: nat, c: nat, d: nat): Option<Addr> {
    if a < 256 && b < 256 && c < 256 && d < 256 then Some(Addr(a, b, c, d)) else None
  }

  lemma DigitsHave(s: string, c: char)
    requires AllDigits(s) && !IsDigit(c)
    ensures c !in s
  {
  }

  lemma ParseAddrText(ip: Addr)
    ensures ParseAddr(AddrText(ip)) == Some(ip)
  {
    var tail2 := Dec(ip.c) + ['.'] + Dec(ip.d);
    var tail1 := Dec(ip.b) + ['.'] + tail2;
    CutAtFirst(Dec(ip.a), '.', tail1);
    CutAtFirst(Dec(ip.b), '.', tail2);
    CutAtFirst(Dec(ip.c), '.', Dec(ip.d));
    ParseDecExact(Dec(ip.a), 256, ip.a);
    ParseDecExact(Dec(ip.b), 256, ip.b);
    ParseDecExact(Dec(ip.c), 256, ip.c);
    ParseDecExact(Dec(ip.d), 256, ip.d);
  }

  lemma AddrTextInjective(x: Addr, y: Addr)
    requires AddrText(x) == AddrText(y)
    ensures x == y
  {
    ParseAddrText(x);
    ParseAddrText(y);
  }

  // An address text holds digits and dots only.
  lemma AddrTextHasNo(ip: Addr, c: char)
    requires !IsDigit(c) && c != '.'
    ensures c !in AddrText(ip)
  {
  }

  // ---- Lines ----

  // Every line followed by its line break.
  function JoinLines(lines: seq<string>): string {
    if lines == [] then "" else JoinLines(lines[..|lines| - 1]) + lines[|lines| - 1] + "\n"
  }

  function SplitLines(s: string): seq<string>
    decreases |s|
  {
    if s == "" then []
    else match Cut(s, '\n')
      case None => [s]
      case Some((line, rest)) => CutExact(s, '\n'); [line] + SplitLines(rest)
  }

  lemma {:induction false} JoinAppend(x: seq<string>, y: seq<string>)
    ensures JoinLines(x + y) == JoinLines(x) + JoinLines(y)
  {
    if y == [] {
      assert x + y == x;
    } else {
      var front := y[..|y| - 1];
      JoinAppend(x, front);
      assert (x + y)[..|x + y| - 1] == x + front;
    }
  }

  lemma {:induction false} SplitJoin(lines: seq<string>)
    requires forall i :: 0 <= i < |lines| ==> '\n' !in lines[i]
    ensures SplitLines(JoinLines(lines)) == lines
  {
    if lines != [] {
      var rest := lines[1..];
      assert lines == [lines[0]] + rest;
      JoinAppend([lines[0]], rest);
      assert JoinLines([lines[0]]) == lines[0] + ['\n'];
      CutAtFirst(lines[0], '\n', JoinLines(rest));
      SplitJoin(rest);
    }
  }
}
