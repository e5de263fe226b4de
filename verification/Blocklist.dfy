/** The blocklist compiler of crates/compat/src/lib.rs. `isIp` stands for address parsing. */
module Blocklist {
  import opened Bytes
  import opened Names
  import opened DomainSet

  const MAX_BLOCKLIST_BYTES := 8 * 1024 * 1024
  const MAX_BLOCKLIST_ENTRIES := 250_000

  /** ASCII text as octets. */
  function Text(s: string): (r: Octets)
    requires forall i :: 0 <= i < |s| ==> s[i] < 128 as char
    ensures |r| == |s|
  {
    seq(|s|, i requires 0 <= i < |s| => s[i] as int)
  }

  const HASH: Byte := '#' as int
  const BANG: Byte := '!' as int
  const CARET: Byte := '^' as int
  const PIPES: Octets := Text("||")
  const AT_PIPES: Octets := Text("@@||")

  datatype RuleKind = BlockExact | BlockSuffix | AllowSuffix

  datatype LineResult = Ignored | Refused | Entry(kind: RuleKind, domain: Octets)

  // ---------------------------------------------------------------- text

  /** Octets taken by the Unicode white space at the head of a UTF-8 text, 0 when there is none. */
  function SpaceWidth(s: Octets): (k: nat)
    ensures k <= |s|
  {
    if |s| >= 1 && (s[0] == 32 || 9 <= s[0] <= 13) then 1
    else if |s| >= 2 && s[0] == 0xC2 && (s[1] == 0x85 || s[1] == 0xA0) then 2
    else if |s| >= 3 && ((s[0] == 0xE1 && s[1] == 0x9A && s[2] == 0x80)
                         || (s[0] == 0xE2 && s[1] == 0x80 && (0x80 <= s[2] <= 0x8A || s[2] in {0xA8, 0xA9, 0xAF}))
                         || (s[0] == 0xE2 && s[1] == 0x81 && s[2] == 0x9F)
                         || (s[0] == 0xE3 && s[1] == 0x80 && s[2] == 0x80)) then 3
    else 0
  }

  /** Octets taken by the white space at the end of a UTF-8 text. */
  function FinalSpaceWidth(s: Octets): (k: nat)
    ensures k <= |s|
  {
    if |s| >= 1 && SpaceWidth(s[|s| - 1..]) == 1 then 1
    else if |s| >= 2 && SpaceWidth(s[|s| - 2..]) == 2 then 2
    else if |s| >= 3 && SpaceWidth(s[|s| - 3..]) == 3 then 3
    else 0
  }

  function TrimLeft(s: Octets): Octets
    decreases |s|
  {
    if SpaceWidth(s) > 0 then TrimLeft(s[SpaceWidth(s)..]) else s
  }

  function TrimRight(s: Octets): Octets
    decreases |s|
  {
    if FinalSpaceWidth(s) > 0 then TrimRight(s[..|s| - FinalSpaceWidth(s)]) else s
  }

  function Trim(s: Octets): Octets { TrimLeft(TrimRight(s)) }

  /** The text before the first occurrence of an octet. */
  function Before(s: Octets, b: Byte): Octets
  {
    if s == [] || s[0] == b then [] else [s[0]] + Before(s[1..], b)
  }

  /** `split_whitespace`. */
  function Fields(s: Octets): seq<Octets>
    decreases |s|
  {
    if s == [] then []
    else if SpaceWidth(s) > 0 then Fields(s[SpaceWidth(s)..])
    else
      var word := Word(s);
      [word] + Fields(s[|word|..])
  }

  function Word(s: Octets): (w: Octets)
    ensures |w| <= |s| && (s != [] && SpaceWidth(s) == 0 ==> w != [])
  {
    if s == [] || SpaceWidth(s) > 0 then [] else [s[0]] + Word(s[1..])
  }

  /** `lines`: newline-terminated pieces without their newline and carriage return. */
  function Lines(text: Octets): seq<Octets>
    decreases |text|
  {
    if text == [] then []
    else
      var line := Before(text, LF);
      BeforeLength(text, LF);
      var rest := if |line| < |text| then text[|line| + 1..] else [];
      var stripped := if |line| < |text| && line != [] && line[|line| - 1] == CR then line[..|line| - 1] else line;
      [stripped] + Lines(rest)
  }

  lemma {:induction false} BeforeLength(s: Octets, b: Byte)
    ensures |Before(s, b)| <= |s|
  {
    if s != [] && s[0] != b { BeforeLength(s[1..], b); }
  }

  /** The text between a prefix and a final octet. */
  function Strip(s: Octets, prefix: Octets, last: Byte): Option<Octets>
  {
    if prefix <= s && |s| > |prefix| && s[|s| - 1] == last then Some(s[|prefix|..|s| - 1]) else None
  }

  const LOCALHOST_ALIASES: seq<Octets> := [
    Text("localhost"), Text("localhost.localdomain"), Text("broadcasthost"), Text("ip6-localhost"), Text("ip6-loopback")]

  /** The names that hosts files give to the machine itself, in any case. */
  predicate IsLocalhostAlias(value: Octets) { Lower(value) in LOCALHOST_ALIASES }

  // ---------------------------------------------------------------- one line

  function DomainEntry(kind: RuleKind, value: Octets): LineResult
  {
    match Normalize(value)
    case None => Refused
    case Some(domain) => Entry(kind, domain)
  }

  /** The hosts of a hosts line: at most one that is no localhost alias, and that one valid. */
  function HostsEntry(hosts: seq<Octets>, accepted: LineResult): LineResult
  {
    if hosts == [] || accepted.Refused? then accepted
    else if IsLocalhostAlias(hosts[0]) then HostsEntry(hosts[1..], accepted)
    else if accepted.Entry? then Refused
    else HostsEntry(hosts[1..], DomainEntry(BlockExact, hosts[0]))
  }

  function ParseLine(isIp: Octets -> bool, raw: Octets): LineResult
  {
    var value := Trim(raw);
    if value == [] || value[0] == HASH || value[0] == BANG then Ignored
    else if Strip(value, AT_PIPES, CARET).Some? then DomainEntry(AllowSuffix, Strip(value, AT_PIPES, CARET).value)
    else if Strip(value, PIPES, CARET).Some? then DomainEntry(BlockSuffix, Strip(value, PIPES, CARET).value)
    else
      var fields := Fields(Trim(Before(value, HASH)));
      if fields == [] then Ignored
      else if isIp(fields[0]) then HostsEntry(fields[1..], Ignored)
      else if |fields| > 1 then Refused
      else DomainEntry(BlockExact, fields[0])
  }

  /** The host loop of `parse_line`. */
  method ParseHosts(hosts: seq<Octets>) returns (r: LineResult)
    ensures r == HostsEntry(hosts, Ignored)
  {
    hide DomainEntry, IsLocalhostAlias;
    r := Ignored;
    for i := 0 to |hosts|
      invariant HostsEntry(hosts, Ignored) == HostsEntry(hosts[i..], r)
      invariant !r.Refused?
    {
      assert hosts[i..][1..] == hosts[i + 1..];
      if IsLocalhostAlias(hosts[i]) {
        continue;
      }
      if r.Entry? {
        return Refused;
      }
      r := DomainEntry(BlockExact, hosts[i]);
      if r.Refused? {
        return;
      }
    }
  }

  /** `parse_line`. */
  method ReadLine(isIp: Octets -> bool, raw: Octets) returns (r: LineResult)
    ensures r == ParseLine(isIp, raw)
  {
    hide DomainEntry, Trim, Fields, Before, HostsEntry;
    var value := Trim(raw);
    if value == [] || value[0] == HASH || value[0] == BANG {
      return Ignored;
    }
    var allowed, blocked := Strip(value, AT_PIPES, CARET), Strip(value, PIPES, CARET);
    if allowed.Some? {
      return DomainEntry(AllowSuffix, allowed.value);
    }
    if blocked.Some? {
      return DomainEntry(BlockSuffix, blocked.value);
    }
    var fields := Fields(Trim(Before(value, HASH)));
    if fields == [] {
      return Ignored;
    }
    if isIp(fields[0]) {
      r := ParseHosts(fields[1..]);
      return;
    }
    return if |fields| > 1 then Refused else DomainEntry(BlockExact, fields[0]);
  }

  /** The hosts that are no localhost aliases. */
  function RealHosts(hosts: seq<Octets>): seq<Octets>
  {
    if hosts == [] then []
    else (if IsLocalhostAlias(hosts[0]) then [] else [hosts[0]]) + RealHosts(hosts[1..])
  }

  /**
   * What a hosts line means: nothing when all its hosts are localhost aliases, the one other host when there is
   * exactly one and it is valid, and an error otherwise.
   */
  lemma {:induction false} HostsMeaning(hosts: seq<Octets>)
    ensures var others := RealHosts(hosts);
            HostsEntry(hosts, Ignored)
            == if others == [] then Ignored else if |others| == 1 then DomainEntry(BlockExact, others[0]) else Refused
  {
    hide DomainEntry, IsLocalhostAlias;
    if hosts != [] {
      var first := DomainEntry(BlockExact, hosts[0]);
      if IsLocalhostAlias(hosts[0]) {
        HostsMeaning(hosts[1..]);
      } else {
        EntryOrRefused(hosts[0]);
        FurtherHosts(hosts[1..], first);
      }
    }
  }

  lemma EntryOrRefused(host: Octets)
    ensures !DomainEntry(BlockExact, host).Ignored?
  {
  }

  lemma {:induction false} FurtherHosts(hosts: seq<Octets>, accepted: LineResult)
    requires !accepted.Ignored?
    ensures HostsEntry(hosts, accepted) == if RealHosts(hosts) == [] then accepted else Refused
  {
    hide DomainEntry, IsLocalhostAlias;
    if hosts != [] && accepted.Entry? && IsLocalhostAlias(hosts[0]) { FurtherHosts(hosts[1..], accepted); }
  }

  lemma {:induction false} HostsEntryNormal(hosts: seq<Octets>, accepted: LineResult)
    requires accepted.Entry? ==> Normal(accepted.domain)
    ensures HostsEntry(hosts, accepted).Entry? ==> Normal(HostsEntry(hosts, accepted).domain)
    decreases |hosts|
  {
    hide Normalize, IsLocalhostAlias;
    if hosts != [] && !accepted.Refused? {
      NormalizeIsNormal(hosts[0]);
      HostsEntryNormal(hosts[1..], accepted);
      HostsEntryNormal(hosts[1..], DomainEntry(BlockExact, hosts[0]));
    }
  }

  /** Every accepted domain is in normal form already. */
  lemma EntriesAreNormal(isIp: Octets -> bool, raw: Octets)
    ensures ParseLine(isIp, raw).Entry? ==> Normal(ParseLine(isIp, raw).domain)
  {
    hide Normalize, IsLocalhostAlias, Trim, Fields, Before;
    var value := Trim(raw);
    if Strip(value, AT_PIPES, CARET).Some? { NormalizeIsNormal(Strip(value, AT_PIPES, CARET).value); }
    if Strip(value, PIPES, CARET).Some? { NormalizeIsNormal(Strip(value, PIPES, CARET).value); }
    var fields := Fields(Trim(Before(value, HASH)));
    if fields != [] {
      HostsEntryNormal(fields[1..], Ignored);
      NormalizeIsNormal(fields[0]);
    }
  }

  // ---------------------------------------------------------------- the compiler

  datatype BlocklistStats = BlocklistStats(sourceLines: nat, acceptedBlock: nat, acceptedAllow: nat, ignored: nat)

  datatype CompiledBlocklist = CompiledBlocklist(filter: DomainFilter, stats: BlocklistStats)

  function Results(isIp: Octets -> bool, lines: seq<Octets>): (r: seq<LineResult>)
    ensures |r| == |lines|
  {
    seq(|lines|, i requires 0 <= i < |lines| => ParseLine(isIp, lines[i]))
  }

  /** The domains of one kind, in order. */
  function Domains(results: seq<LineResult>, kind: RuleKind): seq<Octets>
  {
    if results == [] then []
    else
      var last := results[|results| - 1];
      Domains(results[..|results| - 1], kind) + if last.Entry? && last.kind == kind then [last.domain] else []
  }

  function Accepted(results: seq<LineResult>): nat
  {
    |Domains(results, BlockExact)| + |Domains(results, BlockSuffix)| + |Domains(results, AllowSuffix)|
  }

  lemma {:induction false} DomainsMembers(results: seq<LineResult>, kind: RuleKind)
    ensures forall d :: d in Domains(results, kind) <==> exists i :: 0 <= i < |results| && results[i] == Entry(kind, d)
  {
    if results != [] {
      var n := |results| - 1;
      var front := results[..n];
      DomainsMembers(front, kind);
      forall d ensures d in Domains(results, kind) <==> exists i :: 0 <= i < |results| && results[i] == Entry(kind, d) {
        if i :| 0 <= i < |results| && results[i] == Entry(kind, d) {
          if i < n { assert front[i] == Entry(kind, d); }
        }
      }
    }
  }

  lemma NoDomains(results: seq<LineResult>)
    ensures forall kind :: Domains(results[..0], kind) == []
  {
  }

  /** Reading one more line. */
  lemma DomainsStep(results: seq<LineResult>, i: nat)
    requires i < |results|
    ensures forall kind :: Domains(results[..i + 1], kind) == Domains(results[..i], kind)
              + if results[i].Entry? && results[i].kind == kind then [results[i].domain] else []
  {
    assert results[..i + 1][..i] == results[..i] && results[..i + 1][i] == results[i];
  }

  lemma {:induction false} AcceptedGrows(results: seq<LineResult>, n: nat)
    requires n <= |results|
    ensures Accepted(results[..n]) <= Accepted(results)
    decreases |results| - n
  {
    if n < |results| {
      assert results[..n + 1][..n] == results[..n];
      AcceptedGrows(results, n + 1);
    } else {
      assert results[..n] == results;
    }
  }

  /** No line is refused and the entries fit. */
  ghost predicate Acceptable(results: seq<LineResult>)
  {
    (forall i :: 0 <= i < |results| ==> !results[i].Refused?) && Accepted(results) <= 250_000
  }

  lemma DomainsAreNormal(isIp: Octets -> bool, lines: seq<Octets>, kind: RuleKind)
    ensures forall d :: d in Domains(Results(isIp, lines), kind) ==> Normal(d)
  {
    hide ParseLine, Normalize;
    DomainsMembers(Results(isIp, lines), kind);
    forall i | 0 <= i < |lines| ensures Results(isIp, lines)[i].Entry? ==> Normal(Results(isIp, lines)[i].domain) {
      EntriesAreNormal(isIp, lines[i]);
    }
  }

  /**
   * `compile_blocklist`. It succeeds exactly when the text is within the byte limit, every line parses and the
   * entries are within their limit: once the lines are read, compiling the sets cannot fail. Every line is
   * counted once.
   */
  method CompileBlocklist(isIp: Octets -> bool, text: Octets) returns (r: Option<CompiledBlocklist>)
    ensures r.Some? <==> |text| <= 8_388_608 && Acceptable(Results(isIp, Lines(text)))
    ensures r.Some? ==>
      var results, stats := Results(isIp, Lines(text)), r.value.stats;
      && stats.sourceLines == |Lines(text)| == stats.acceptedBlock + stats.acceptedAllow + stats.ignored
      && stats.acceptedAllow == |Domains(results, AllowSuffix)|
      && stats.acceptedBlock == |Domains(results, BlockExact)| + |Domains(results, BlockSuffix)|
      && CompiledFrom(isIp, Lines(text), r.value.filter)
  {
    hide ParseLine, Lines, Compile, Normalize, Domains;
    if |text| > MAX_BLOCKLIST_BYTES {
      return None;
    }
    var lines := Lines(text);
    ghost var results := Results(isIp, lines);
    var exact, suffix, allowed := [], [], [];
    var stats := BlocklistStats(0, 0, 0, 0);
    NoDomains(results);
    for i := 0 to |lines|
      invariant exact == Domains(results[..i], BlockExact)
      invariant suffix == Domains(results[..i], BlockSuffix)
      invariant allowed == Domains(results[..i], AllowSuffix)
      invariant stats.sourceLines == i == stats.acceptedBlock + stats.acceptedAllow + stats.ignored
      invariant stats.acceptedBlock == |exact| + |suffix| && stats.acceptedAllow == |allowed|
      invariant |exact| + |suffix| + |allowed| <= MAX_BLOCKLIST_ENTRIES
      invariant forall j :: 0 <= j < i ==> !results[j].Refused?
    {
      stats := stats.(sourceLines := stats.sourceLines + 1);
      DomainsStep(results, i);
      var line := ReadLine(isIp, lines[i]);
      match line {
        case Refused =>
          return None;
        case Ignored =>
          stats := stats.(ignored := stats.ignored + 1);
        case Entry(kind, domain) =>
          if |exact| + |suffix| + |allowed| >= MAX_BLOCKLIST_ENTRIES {
            AcceptedGrows(results, i + 1);
            return None;
          }
          match kind {
            case BlockExact =>
              exact := exact + [domain];
              stats := stats.(acceptedBlock := stats.acceptedBlock + 1);
            case BlockSuffix =>
              suffix := suffix + [domain];
              stats := stats.(acceptedBlock := stats.acceptedBlock + 1);
            case AllowSuffix =>
              allowed := allowed + [domain];
              stats := stats.(acceptedAllow := stats.acceptedAllow + 1);
          }
      }
    }
    assert results[..|lines|] == results;
    LinesCompile(isIp, lines);
    var blockedSet, allowedSet := Compile(exact, suffix), Compile([], allowed);
    return Some(CompiledBlocklist(DomainFilter(blockedSet.value, allowedSet.value), stats));
  }

  lemma LinesCompile(isIp: Octets -> bool, lines: seq<Octets>)
    ensures var results := Results(isIp, lines);
            && NormalizeAll(Domains(results, BlockExact)) == Some(Domains(results, BlockExact))
            && NormalizeAll(Domains(results, BlockSuffix)) == Some(Domains(results, BlockSuffix))
            && NormalizeAll(Domains(results, AllowSuffix)) == Some(Domains(results, AllowSuffix))
            && NormalizeAll([]) == Some([])
            && Compile(Domains(results, BlockExact), Domains(results, BlockSuffix)).Some?
            && Compile([], Domains(results, AllowSuffix)).Some?
  {
    hide Domains, Normalize, NormalizeAll, ParseLine, SortedUnique;
    DomainsAreNormal(isIp, lines, BlockExact);
    DomainsAreNormal(isIp, lines, BlockSuffix);
    DomainsAreNormal(isIp, lines, AllowSuffix);
    NormalNamesStay(Domains(Results(isIp, lines), BlockExact));
    NormalNamesStay(Domains(Results(isIp, lines), BlockSuffix));
    NormalNamesStay(Domains(Results(isIp, lines), AllowSuffix));
    NormalNamesStay([]);
  }

  // ---------------------------------------------------------------- what a blocklist means

  /** An entry covers a domain: exact entries their own name, suffix entries whole labels under theirs. */
  predicate EntryCovers(entry: LineResult, d: Octets)
  {
    entry.Entry? && if entry.kind.BlockExact? then d == entry.domain else SuffixMatch(d, entry.domain)
  }

  /** Some line blocks the domain, and no line allows it. */
  ghost predicate BlockedByLines(results: seq<LineResult>, domain: Octets)
  {
    var d := TrimEnd(domain);
    && Searchable(d)
    && (exists entry :: entry in results && EntryCovers(entry, d) && !entry.kind.AllowSuffix?)
    && !(exists entry :: entry in results && EntryCovers(entry, d) && entry.kind.AllowSuffix?)
  }

  lemma BlockEntries(results: seq<LineResult>, d: Octets)
    ensures d in Domains(results, BlockExact) || (exists s :: s in Domains(results, BlockSuffix) && SuffixMatch(d, s))
            <==> exists entry :: entry in results && EntryCovers(entry, d) && !entry.kind.AllowSuffix?
  {
    hide SuffixMatch, Domains;
    DomainsMembers(results, BlockExact);
    DomainsMembers(results, BlockSuffix);
    if entry :| entry in results && EntryCovers(entry, d) && !entry.kind.AllowSuffix? {
      var j :| 0 <= j < |results| && results[j] == entry;
      assert results[j] == Entry(entry.kind, entry.domain);
      assert entry.domain in Domains(results, entry.kind);
    }
    if d in Domains(results, BlockExact) {
      var j :| 0 <= j < |results| && results[j] == Entry(BlockExact, d);
      assert results[j] in results && EntryCovers(results[j], d);
    }
    if s :| s in Domains(results, BlockSuffix) && SuffixMatch(d, s) {
      var j :| 0 <= j < |results| && results[j] == Entry(BlockSuffix, s);
      assert results[j] in results && EntryCovers(results[j], d);
    }
  }

  lemma AllowEntries(results: seq<LineResult>, d: Octets)
    ensures (exists s :: s in Domains(results, AllowSuffix) && SuffixMatch(d, s))
            <==> exists entry :: entry in results && EntryCovers(entry, d) && entry.kind.AllowSuffix?
  {
    hide SuffixMatch, Domains;
    DomainsMembers(results, AllowSuffix);
    if entry :| entry in results && EntryCovers(entry, d) && entry.kind.AllowSuffix? {
      var j :| 0 <= j < |results| && results[j] == entry;
      assert results[j] == Entry(AllowSuffix, entry.domain);
      assert entry.domain in Domains(results, AllowSuffix);
    }
    if s :| s in Domains(results, AllowSuffix) && SuffixMatch(d, s) {
      var j :| 0 <= j < |results| && results[j] == Entry(AllowSuffix, s);
      assert results[j] in results && EntryCovers(results[j], d);
    }
  }

  /**
   * Compilation preserves meaning: the compiled filter blocks a domain exactly when some block line covers it
   * and no allow line does.
   */
  lemma FilterMeansItsLines(isIp: Octets -> bool, lines: seq<Octets>, filter: DomainFilter, domain: Octets)
    requires CompiledFrom(isIp, lines, filter)
    ensures IsBlocked(filter, domain) <==> BlockedByLines(Results(isIp, lines), domain)
  {
    hide ParseLine, SuffixMatch, EntryCovers, Compile, Searchable, Domains, NormalizeAll;
    var results := Results(isIp, lines);
    LinesCompile(isIp, lines);
    CompileMeaning(Domains(results, BlockExact), Domains(results, BlockSuffix), domain);
    CompileMeaning([], Domains(results, AllowSuffix), domain);
    BlockEntries(results, TrimEnd(domain));
    AllowEntries(results, TrimEnd(domain));
  }

  /** The filter that the compiler makes of some lines. */
  ghost predicate CompiledFrom(isIp: Octets -> bool, lines: seq<Octets>, filter: DomainFilter)
  {
    var results := Results(isIp, lines);
    && Some(filter.blocked) == Compile(Domains(results, BlockExact), Domains(results, BlockSuffix))
    && Some(filter.allowed) == Compile([], Domains(results, AllowSuffix))
  }

  /** The order of the lines, and their repetition, do not change what the compiled filters block. */
  lemma LineOrderDoesNotMatter(isIp: Octets -> bool, a: seq<Octets>, b: seq<Octets>,
                               filterA: DomainFilter, filterB: DomainFilter, domain: Octets)
    requires forall line :: line in a <==> line in b
    requires CompiledFrom(isIp, a, filterA) && CompiledFrom(isIp, b, filterB)
    ensures IsBlocked(filterA, domain) <==> IsBlocked(filterB, domain)
  {
    hide ParseLine, EntryCovers, Searchable, Compile, Domains, IsBlocked;
    FilterMeansItsLines(isIp, a, filterA, domain);
    FilterMeansItsLines(isIp, b, filterB, domain);
    forall entry ensures entry in Results(isIp, a) <==> entry in Results(isIp, b) {
      SameResults(isIp, a, b, entry);
      SameResults(isIp, b, a, entry);
    }
  }

  lemma SameResults(isIp: Octets -> bool, a: seq<Octets>, b: seq<Octets>, entry: LineResult)
    requires forall line :: line in a ==> line in b
    ensures entry in Results(isIp, a) ==> entry in Results(isIp, b)
  {
    hide ParseLine;
    if entry in Results(isIp, a) {
      var i :| 0 <= i < |a| && Results(isIp, a)[i] == entry;
      assert a[i] in b;
      var j :| 0 <= j < |b| && b[j] == a[i];
      assert Results(isIp, b)[j] == entry;
    }
  }

  // ---------------------------------------------------------------- what is written on a line

  /** One white-space character. */
  predicate IsWhite(c: Octets) { c != [] && SpaceWidth(c) == |c| }

  predicate AllWhite(chars: seq<Octets>) { forall i :: 0 <= i < |chars| ==> IsWhite(chars[i]) }

  /** The octets of some characters. */
  function Flat(chars: seq<Octets>): Octets
  {
    if chars == [] then [] else chars[0] + Flat(chars[1..])
  }

  /** An ASCII octet that is no white space. */
  predicate Visible(b: Byte) { b < 128 && b != 32 && !(9 <= b <= 13) }

  lemma WhiteFirst(c: Octets, x: Octets)
    requires IsWhite(c)
    ensures SpaceWidth(c + x) == |c|
  {
  }

  lemma WhiteLast(x: Octets, c: Octets)
    requires IsWhite(c)
    ensures FinalSpaceWidth(x + c) == |c|
  {
    var s := x + c;
    assert s[|x|..] == c;
    if |c| == 1 {
      assert s[|s| - 1..] == c;
    } else if |c| == 2 {
      assert s[|s| - 1..] == [c[1]] && s[|s| - 2..] == c;
    } else {
      assert s[|s| - 1..] == [c[2]] && s[|s| - 2..] == [c[1], c[2]] && s[|s| - 3..] == c;
    }
  }

  lemma {:induction false} FlatLast(chars: seq<Octets>)
    requires chars != []
    ensures Flat(chars) == Flat(chars[..|chars| - 1]) + chars[|chars| - 1]
  {
    if |chars| == 1 {
      assert chars[1..] == [] && chars[..0] == [];
    } else {
      var n := |chars| - 1;
      FlatLast(chars[1..]);
      assert chars[1..][..n - 1] == chars[..n][1..] && chars[1..][n - 1] == chars[n];
      Associate(chars[0], Flat(chars[..n][1..]), chars[n]);
    }
  }

  lemma {:induction false} TrimsLeft(chars: seq<Octets>, x: Octets)
    requires AllWhite(chars) && SpaceWidth(x) == 0
    ensures TrimLeft(Flat(chars) + x) == x
    decreases |chars|
  {
    hide SpaceWidth;
    if chars == [] {
      assert [] + x == x;
    } else {
      var rest := Flat(chars[1..]) + x;
      Associate(chars[0], Flat(chars[1..]), x);
      WhiteFirst(chars[0], rest);
      assert (chars[0] + rest)[|chars[0]|..] == rest;
      assert forall i :: 0 <= i < |chars[1..]| ==> chars[1..][i] == chars[i + 1];
      TrimsLeft(chars[1..], x);
    }
  }

  lemma {:induction false} TrimsRight(x: Octets, chars: seq<Octets>)
    requires AllWhite(chars) && FinalSpaceWidth(x) == 0
    ensures TrimRight(x + Flat(chars)) == x
    decreases |chars|
  {
    hide SpaceWidth, FinalSpaceWidth;
    if chars == [] {
      assert x + [] == x;
    } else {
      var n := |chars| - 1;
      var front := x + Flat(chars[..n]);
      FlatLast(chars);
      Associate(x, Flat(chars[..n]), chars[n]);
      WhiteLast(front, chars[n]);
      assert (front + chars[n])[..|front|] == front;
      TrimsRight(x, chars[..n]);
    }
  }

  lemma VisibleEnds(x: Octets)
    requires x != []
    ensures Visible(x[0]) ==> SpaceWidth(x) == 0
    ensures Visible(x[|x| - 1]) ==> FinalSpaceWidth(x) == 0
  {
    hide FinalSpaceWidth;
    if Visible(x[|x| - 1]) { WhiteSuffix(x, |x| - 1); }
  }

  /** White space around a text with visible ends is trimmed, and nothing else. */
  lemma TrimExact(before: seq<Octets>, x: Octets, after: seq<Octets>)
    requires AllWhite(before) && AllWhite(after) && x != [] && Visible(x[0]) && Visible(x[|x| - 1])
    ensures Trim(Flat(before) + x + Flat(after)) == x
  {
    hide SpaceWidth, FinalSpaceWidth, TrimLeft, TrimRight;
    var y := Flat(before) + x;
    VisibleEnds(x);
    VisibleEnds(y);
    TrimsRight(y, after);
    TrimsLeft(before, x);
  }

  /** Trimming on the right never goes past a visible octet. */
  lemma {:induction false} TrimRightStops(x: Octets, b: Byte, y: Octets) returns (n: nat)
    requires Visible(b)
    ensures n <= |y| && TrimRight(x + [b] + y) == x + [b] + y[..n]
    decreases |y|
  {
    hide SpaceWidth, FinalSpaceWidth;
    var s := x + [b] + y;
    var k := FinalSpaceWidth(s);
    if k == 0 {
      n := |y|;
    } else {
      assert s[|x|] == b;
      WhiteSuffix(s, |x|);
      assert s[..|s| - k] == x + [b] + y[..|y| - k];
      n := TrimRightStops(x, b, y[..|y| - k]);
      assert y[..|y| - k][..n] == y[..n];
    }
  }

  lemma WhiteSuffix(s: Octets, at: nat)
    requires at < |s| && Visible(s[at])
    ensures FinalSpaceWidth(s) < |s| - at || FinalSpaceWidth(s) == 0
  {
    hide FinalSpaceWidth, SpaceWidth;
    var k := FinalSpaceWidth(s);
    FinalIsWhite(s);
    if k > 0 && at >= |s| - k {
      var c := s[|s| - k..];
      assert c[at - (|s| - k)] == s[at];
      WhiteIsInvisible(c, at - (|s| - k));
    }
  }

  lemma FinalIsWhite(s: Octets)
    ensures FinalSpaceWidth(s) > 0 ==> IsWhite(s[|s| - FinalSpaceWidth(s)..])
  {
    hide SpaceWidth;
  }

  lemma WhiteIsInvisible(c: Octets, i: nat)
    requires IsWhite(c) && i < |c|
    ensures !Visible(c[i])
  {
  }

  /** A line whose first visible octet is `#` or `!` is ignored, whatever follows. */
  lemma CommentLines(isIp: Octets -> bool, before: seq<Octets>, mark: Byte, rest: Octets)
    requires AllWhite(before) && mark in {'#' as int, '!' as int}
    ensures ParseLine(isIp, Flat(before) + [mark] + rest) == Ignored
  {
    hide SpaceWidth, FinalSpaceWidth, TrimLeft, TrimRight;
    var n := TrimRightStops(Flat(before), mark, rest);
    var x := [mark] + rest[..n];
    assert Flat(before) + [mark] + rest[..n] == Flat(before) + x;
    VisibleEnds(x);
    TrimsLeft(before, x);
  }

  lemma StripExact(prefix: Octets, d: Octets, last: Byte)
    ensures Strip(prefix + d + [last], prefix, last) == Some(d)
  {
    assert (prefix + d + [last])[|prefix|..|prefix| + |d|] == d;
  }

  /** `||d^` blocks d and what is under it. */
  lemma BlockLines(isIp: Octets -> bool, before: seq<Octets>, d: Octets, after: seq<Octets>)
    requires AllWhite(before) && AllWhite(after) && Normal(d)
    ensures ParseLine(isIp, Flat(before) + (Text("||") + d + Text("^")) + Flat(after)) == Entry(BlockSuffix, d)
  {
    hide Normalize, Trim;
    var x := Text("||") + d + Text("^");
    assert Text("^") == [CARET] && x[0] == '|' as int;
    TrimExact(before, x, after);
    StripExact(PIPES, d, CARET);
    assert Strip(x, AT_PIPES, CARET).None?;
  }

  /** `@@||d^` allows d and what is under it. */
  lemma AllowLines(isIp: Octets -> bool, before: seq<Octets>, d: Octets, after: seq<Octets>)
    requires AllWhite(before) && AllWhite(after) && Normal(d)
    ensures ParseLine(isIp, Flat(before) + (Text("@@||") + d + Text("^")) + Flat(after)) == Entry(AllowSuffix, d)
  {
    hide Normalize, Trim;
    var x := Text("@@||") + d + Text("^");
    assert Text("^") == [CARET] && x[0] == '@' as int;
    TrimExact(before, x, after);
    StripExact(AT_PIPES, d, CARET);
  }

  // ---------------------------------------------------------------- lines of fields

  /** A field: visible octets, none of them `#`. */
  predicate IsField(w: Octets) { w != [] && forall i :: 0 <= i < |w| ==> Visible(w[i]) && w[i] != '#' as int }

  /** The first field of a line must not make it a comment or a filter line. */
  predicate IsFirstField(w: Octets) { IsField(w) && w[0] !in {'!' as int, '|' as int, '@' as int} }

  lemma {:induction false} WordExact(w: Octets, rest: Octets)
    requires IsField(w) && (rest == [] || SpaceWidth(rest) > 0)
    ensures Word(w + rest) == w
    decreases |w|
  {
    hide SpaceWidth, Word, IsField;
    var b, tail := FieldHead(w);
    WordStep(b, tail + rest);
    assert w + rest == [b] + (tail + rest);
    if tail == [] {
      assert tail + rest == rest;
      NoWord(rest);
    } else {
      WordExact(tail, rest);
    }
  }

  lemma FieldHead(w: Octets) returns (b: Byte, tail: Octets)
    requires IsField(w)
    ensures w == [b] + tail && Visible(b) && (tail == [] || IsField(tail))
  {
    b, tail := w[0], w[1..];
    forall i | 0 <= i < |tail| ensures Visible(tail[i]) && tail[i] != '#' as int { assert tail[i] == w[i + 1]; }
  }

  lemma WordStep(b: Byte, rest: Octets)
    requires Visible(b)
    ensures Word([b] + rest) == [b] + Word(rest)
  {
    hide SpaceWidth;
    VisibleEnds([b] + rest);
    assert ([b] + rest)[1..] == rest;
  }

  lemma NoWord(rest: Octets)
    requires rest == [] || SpaceWidth(rest) > 0
    ensures Word(rest) == []
  {
  }

  lemma OneField(w: Octets)
    requires IsField(w)
    ensures Fields(w) == [w]
  {
    hide SpaceWidth, Word;
    assert Visible(w[0]);
    VisibleEnds(w);
    WordExact(w, []);
    assert w + [] == w && w[|w|..] == [] && Fields([]) == [];
  }

  lemma {:induction false} FieldsAfterBlank(chars: seq<Octets>, x: Octets)
    requires AllWhite(chars)
    ensures Fields(Flat(chars) + x) == Fields(x)
    decreases |chars|
  {
    hide SpaceWidth, Word;
    if chars == [] {
      assert [] + x == x;
    } else {
      var rest := Flat(chars[1..]) + x;
      Associate(chars[0], Flat(chars[1..]), x);
      WhiteFirst(chars[0], rest);
      assert (chars[0] + rest)[|chars[0]|..] == rest;
      assert forall i :: 0 <= i < |chars[1..]| ==> chars[1..][i] == chars[i + 1];
      FieldsAfterBlank(chars[1..], x);
    }
  }

  lemma TwoFields(a: Octets, gap: seq<Octets>, b: Octets)
    requires IsField(a) && IsField(b) && AllWhite(gap) && gap != []
    ensures Fields(a + (Flat(gap) + b)) == [a, b]
  {
    hide SpaceWidth, Word;
    var rest := Flat(gap) + b;
    Associate(gap[0], Flat(gap[1..]), b);
    WhiteFirst(gap[0], Flat(gap[1..]) + b);
    WordExact(a, rest);
    assert Visible(a[0]) && (a + rest)[0] == a[0];
    VisibleEnds(a + rest);
    assert (a + rest)[|a|..] == rest;
    FieldsAfterBlank(gap, b);
    OneField(b);
  }

  lemma {:induction false} BeforeExact(x: Octets, b: Byte, y: Octets)
    requires b !in x
    ensures Before(x, b) == x && Before(x + [b] + y, b) == x
    decreases |x|
  {
    if x != [] {
      assert x[0] in x;
      BeforeExact(x[1..], b, y);
      assert (x + [b] + y)[1..] == x[1..] + [b] + y && x == [x[0]] + x[1..];
    }
  }

  lemma WhiteHasNoHash(c: Octets)
    requires IsWhite(c)
    ensures ('#' as int) !in c
  {
  }

  lemma {:induction false} BlankHasNoHash(chars: seq<Octets>)
    requires AllWhite(chars)
    ensures ('#' as int) !in Flat(chars)
  {
    if chars != [] {
      WhiteHasNoHash(chars[0]);
      assert forall i :: 0 <= i < |chars[1..]| ==> chars[1..][i] == chars[i + 1];
      BlankHasNoHash(chars[1..]);
    }
  }

  /** What stands after the fields: blanks, and perhaps a comment. */
  datatype Tail = Blank(after: seq<Octets>) | Comment(gap: seq<Octets>, comment: Octets)

  predicate TailWritten(t: Tail) { AllWhite(if t.Blank? then t.after else t.gap) }

  function TailOctets(t: Tail): Octets
  {
    match t
    case Blank(after) => Flat(after)
    case Comment(gap, comment) => Flat(gap) + ['#' as int] + comment
  }

  /** The fields of a line are those of its text before the comment. */
  lemma FieldLine(isIp: Octets -> bool, before: seq<Octets>, x: Octets, t: Tail)
    requires AllWhite(before) && TailWritten(t) && x != [] && ('#' as int) !in x
    requires Visible(x[0]) && Visible(x[|x| - 1]) && x[0] !in {'!' as int, '|' as int, '@' as int}
    ensures var fields := Fields(x);
            ParseLine(isIp, Flat(before) + x + TailOctets(t))
            == if fields == [] then Ignored
               else if isIp(fields[0]) then HostsEntry(fields[1..], Ignored)
               else if |fields| > 1 then Refused else DomainEntry(BlockExact, fields[0])
  {
    hide Fields, HostsEntry, DomainEntry, Trim, Before;
    var value := LineValue(before, x, t);
    assert value[0] == x[0] && x[0] in x;
    assert Strip(value, AT_PIPES, CARET).None? && Strip(value, PIPES, CARET).None? by {
      assert AT_PIPES[0] == '@' as int && PIPES[0] == '|' as int;
    }
  }

  /** The trimmed line begins with the text, and its part before a comment trims to the text. */
  lemma LineValue(before: seq<Octets>, x: Octets, t: Tail) returns (value: Octets)
    requires AllWhite(before) && TailWritten(t) && x != [] && ('#' as int) !in x
    requires Visible(x[0]) && Visible(x[|x| - 1])
    ensures value == Trim(Flat(before) + x + TailOctets(t)) && x <= value && Trim(Before(value, HASH)) == x
  {
    hide Trim, Before, Flat, Visible;
    match t
    case Blank(after) =>
      TrimExact(before, x, after);
      value := x;
      BeforeExact(x, HASH, []);
      TrimExact([], x, []);
      NoBlanks();
      assert [] + x + [] == x;
    case Comment(gap, comment) =>
      value := CommentValue(before, x, gap, comment);
      assert Flat(before) + x + TailOctets(t) == Flat(before) + (x + Flat(gap)) + [HASH] + comment;
  }

  lemma NoBlanks()
    ensures Flat([]) == []
  {
  }

  lemma CommentValue(before: seq<Octets>, x: Octets, gap: seq<Octets>, comment: Octets) returns (value: Octets)
    requires AllWhite(before) && AllWhite(gap) && x != [] && ('#' as int) !in x
    requires Visible(x[0]) && Visible(x[|x| - 1])
    ensures value == Trim(Flat(before) + (x + Flat(gap)) + [HASH] + comment)
    ensures x <= value && Trim(Before(value, HASH)) == x
  {
    hide SpaceWidth, FinalSpaceWidth, TrimLeft, TrimRight, Before, Flat;
    var core := x + Flat(gap);
    var n := TrimRightStops(Flat(before) + core, HASH, comment);
    value := core + [HASH] + comment[..n];
    assert Flat(before) + core + [HASH] + comment[..n] == Flat(before) + value;
    VisibleEnds(value);
    TrimsLeft(before, value);
    BlankHasNoHash(gap);
    BeforeExact(core, HASH, comment[..n]);
    TrimExact([], x, gap);
    NoBlanks();
    assert [] + x + Flat(gap) == core;
  }

  /** A domain alone on a line, with or without a comment, blocks just itself. */
  lemma DomainLines(isIp: Octets -> bool, before: seq<Octets>, d: Octets, t: Tail)
    requires AllWhite(before) && TailWritten(t) && Normal(d) && IsFirstField(d) && !isIp(d)
    ensures ParseLine(isIp, Flat(before) + d + TailOctets(t)) == Entry(BlockExact, d)
  {
    hide Normalize, Fields;
    FieldLine(isIp, before, d, t);
    OneField(d);
  }

  /** An address and one host that is no localhost alias block that host; without an address two fields are refused. */
  lemma TwoFieldLines(isIp: Octets -> bool, before: seq<Octets>, a: Octets, gap: seq<Octets>, host: Octets, t: Tail)
    requires AllWhite(before) && TailWritten(t) && AllWhite(gap) && gap != [] && IsFirstField(a) && IsField(host)
    ensures var r := ParseLine(isIp, Flat(before) + (a + (Flat(gap) + host)) + TailOctets(t));
            if !isIp(a) then r == Refused
            else if IsLocalhostAlias(host) then r == Ignored
            else if Normal(host) then r == Entry(BlockExact, host)
            else r == DomainEntry(BlockExact, host)
  {
    hide Normalize, Fields, IsLocalhostAlias;
    var x := a + (Flat(gap) + host);
    BlankHasNoHash(gap);
    assert ('#' as int) !in x;
    assert x[0] == a[0] && x[|x| - 1] == host[|host| - 1];
    FieldLine(isIp, before, x, t);
    TwoFields(a, gap, host);
    assert [a, host][1..] == [host] && [host][1..] == [];
    HostsMeaning([host]);
    assert RealHosts([host]) == (if IsLocalhostAlias(host) then [] else [host]) + RealHosts([]);
  }

  // ---------------------------------------------------------------- whole texts

  lemma OneLine(text: Octets)
    requires text != [] && LF !in text
    ensures Lines(text) == [text]
  {
    BeforeExact(text, LF, []);
    assert Lines([]) == [];
  }

  lemma TwoLines(first: Octets, second: Octets)
    requires first != [] && second != [] && LF !in first && LF !in second && first[|first| - 1] != CR
    ensures Lines(first + [LF] + second) == [first, second]
  {
    var text := first + [LF] + second;
    BeforeExact(first, LF, second);
    assert text[|first| + 1..] == second;
    OneLine(second);
  }

  /** The text of a filter that blocks one domain and what is under it. */
  function BlockText(d: Octets): Octets { Text("||") + d + Text("^") }

  function AllowText(d: Octets): Octets { Text("@@||") + d + Text("^") }

  /**
   * From text to meaning. A list of a block line for `d` and an allow line for `e` compiles, and its filter blocks
   * exactly the searchable domains that are d or under d, and neither e nor under e.
   */
  lemma ListBlocks(isIp: Octets -> bool, d: Octets, e: Octets, filter: DomainFilter, domain: Octets)
    requires Normal(d) && Normal(e) && LF !in d && LF !in e
    requires CompiledFrom(isIp, Lines(BlockText(d) + [LF] + AllowText(e)), filter)
    ensures Acceptable(Results(isIp, Lines(BlockText(d) + [LF] + AllowText(e))))
    ensures IsBlocked(filter, domain) <==>
              Searchable(TrimEnd(domain)) && SuffixMatch(TrimEnd(domain), d) && !SuffixMatch(TrimEnd(domain), e)
  {
    hide ParseLine, Normalize, Compile, IsBlocked, Searchable, SuffixMatch, Lines, CompiledFrom, Domains;
    var lines := [BlockText(d), AllowText(e)];
    assert Text("^") == [CARET];
    TwoLines(BlockText(d), AllowText(e));
    BlockLines(isIp, [], d, []);
    AllowLines(isIp, [], e, []);
    assert Flat([]) + BlockText(d) + Flat([]) == BlockText(d) && Flat([]) + AllowText(e) + Flat([]) == AllowText(e);
    var results := Results(isIp, lines);
    assert results == [Entry(BlockSuffix, d), Entry(AllowSuffix, e)];
    FilterMeansItsLines(isIp, lines, filter, domain);
    assert results[0] in results && results[1] in results;
    TwoEntries(results, d, e);
  }

  lemma TwoEntries(results: seq<LineResult>, d: Octets, e: Octets)
    requires results == [Entry(BlockSuffix, d), Entry(AllowSuffix, e)]
    ensures Acceptable(results)
  {
    assert results[..1] == [Entry(BlockSuffix, d)] && results[..1][..0] == [];
    forall kind ensures |Domains(results, kind)| <= 2 {
      assert Domains([], kind) == [] && |Domains(results[..1], kind)| <= 1;
    }
  }

  /** A block line alone blocks exactly the searchable domains that its domain covers. */
  lemma OneLineBlocks(isIp: Octets -> bool, d: Octets, filter: DomainFilter, domain: Octets)
    requires Normal(d) && LF !in d && CompiledFrom(isIp, Lines(BlockText(d)), filter)
    ensures IsBlocked(filter, domain) <==> Searchable(TrimEnd(domain)) && SuffixMatch(TrimEnd(domain), d)
  {
    hide ParseLine, Normalize, Compile, IsBlocked, Searchable, SuffixMatch, Lines, CompiledFrom;
    assert Text("^") == [CARET];
    OneLine(BlockText(d));
    BlockLines(isIp, [], d, []);
    assert Flat([]) + BlockText(d) + Flat([]) == BlockText(d);
    var results := Results(isIp, [BlockText(d)]);
    assert results == [Entry(BlockSuffix, d)];
    FilterMeansItsLines(isIp, [BlockText(d)], filter, domain);
    assert results[0] in results;
  }

  /** The five names for the machine itself. */
  lemma AliasWords(value: Octets)
    ensures IsLocalhostAlias(value) <==>
              || Lower(value) == Text("localhost") || Lower(value) == Text("localhost.localdomain")
              || Lower(value) == Text("broadcasthost") || Lower(value) == Text("ip6-localhost")
              || Lower(value) == Text("ip6-loopback")
  {
    hide Text, Lower;
  }

  /** A carriage return before a newline belongs to the line end. */
  lemma CarriageReturns(first: Octets, second: Octets)
    requires second != [] && LF !in first && LF !in second
    ensures Lines(first + [CR, LF] + second) == [first, second]
  {
    var line := first + [CR];
    var text := first + [CR, LF] + second;
    assert text == line + [LF] + second;
    BeforeExact(line, LF, second);
    assert text[|line| + 1..] == second && line[..|line| - 1] == first;
    OneLine(second);
  }
}
