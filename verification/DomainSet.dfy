/** Compiled domain sets of crates/core/src/domain_set.rs: sorted arrays searched label by label. */
module DomainSet {
  import opened Bytes
  import opened Names

  // ---------------------------------------------------------------- the order of the arrays

  /** Octet-wise lexicographic order, the order of Rust strings. */
  predicate Less(a: Octets, b: Octets)
  {
    b != [] && (a == [] || a[0] < b[0] || (a[0] == b[0] && Less(a[1..], b[1..])))
  }

  lemma {:induction false} Trichotomy(a: Octets, b: Octets)
    ensures Less(a, b) || a == b || Less(b, a)
    ensures !(Less(a, b) && Less(b, a)) && !(a == b && Less(a, b))
  {
    if a != [] && b != [] {
      Trichotomy(a[1..], b[1..]);
      assert a == [a[0]] + a[1..] && b == [b[0]] + b[1..];
    }
  }

  lemma {:induction false} Transitive(a: Octets, b: Octets, c: Octets)
    requires Less(a, b) && Less(b, c)
    ensures Less(a, c)
  {
    if a != [] && a[0] == b[0] && b[0] == c[0] { Transitive(a[1..], b[1..], c[1..]); }
  }

  predicate StrictlySorted(s: seq<Octets>) { forall i, j :: 0 <= i < j < |s| ==> Less(s[i], s[j]) }

  /** Where `sort` and `dedup` put one more element. */
  function Insert(x: Octets, s: seq<Octets>): seq<Octets>
  {
    if s == [] then [x]
    else if x == s[0] then s
    else if Less(x, s[0]) then [x] + s
    else [s[0]] + Insert(x, s[1..])
  }

  /** `sort_unstable` followed by `dedup`. */
  function SortedUnique(s: seq<Octets>): seq<Octets>
  {
    if s == [] then [] else Insert(s[0], SortedUnique(s[1..]))
  }

  lemma {:induction false} InsertSorts(x: Octets, s: seq<Octets>)
    requires StrictlySorted(s)
    ensures StrictlySorted(Insert(x, s))
    ensures forall y :: y in Insert(x, s) <==> y == x || y in s
    decreases |s|
  {
    if s == [] {
    } else if x == s[0] {
    } else if Less(x, s[0]) {
      forall j | 0 <= j < |s| ensures Less(x, s[j]) { if j > 0 { Transitive(x, s[0], s[j]); } }
    } else {
      Trichotomy(x, s[0]);
      InsertSorts(x, s[1..]);
      var tail := Insert(x, s[1..]);
      forall j | 0 <= j < |tail| ensures Less(s[0], tail[j]) {
        assert tail[j] in tail;
        if tail[j] != x { var i :| 0 <= i < |s[1..]| && s[1..][i] == tail[j]; assert s[i + 1] == tail[j]; }
      }
    }
  }

  /** The compiled array is strictly sorted and holds exactly the given elements. */
  lemma {:induction false} SortedUniqueLaws(s: seq<Octets>)
    ensures StrictlySorted(SortedUnique(s))
    ensures forall y :: y in SortedUnique(s) <==> y in s
  {
    if s != [] {
      SortedUniqueLaws(s[1..]);
      InsertSorts(s[0], SortedUnique(s[1..]));
    }
  }

  method BinarySearch(s: seq<Octets>, key: Octets) returns (found: bool)
    requires StrictlySorted(s)
    ensures found <==> key in s
  {
    var lo, hi := 0, |s|;
    while lo < hi
      invariant 0 <= lo <= hi <= |s|
      invariant forall i :: 0 <= i < |s| && !(lo <= i < hi) ==> s[i] != key
    {
      var mid := (lo + hi) / 2;
      if s[mid] == key {
        return true;
      }
      Trichotomy(s[mid], key);
      if Less(s[mid], key) {
        forall i | 0 <= i <= mid ensures s[i] != key { if i < mid { Trichotomy(s[i], s[mid]); } }
        lo := mid + 1;
      } else {
        forall i | mid <= i < |s| ensures s[i] != key { if mid < i { Trichotomy(s[mid], s[i]); } }
        hi := mid;
      }
    }
    found := false;
  }

  // ---------------------------------------------------------------- compilation

  datatype DomainSet = DomainSet(exact: seq<Octets>, suffixes: seq<Octets>)

  predicate Compiled(s: DomainSet) { StrictlySorted(s.exact) && StrictlySorted(s.suffixes) }

  /** All names in normal form, or None when one has none. */
  function NormalizeAll(names: seq<Octets>): Option<seq<Octets>>
  {
    if names == [] then Some([])
    else
      match Normalize(names[0])
      case None => None
      case Some(n) =>
        var rest := NormalizeAll(names[1..]);
        if rest.None? then None else Some([n] + rest.value)
  }

  function Compile(exact: seq<Octets>, suffixes: seq<Octets>): Option<DomainSet>
  {
    var e, s := NormalizeAll(exact), NormalizeAll(suffixes);
    if e.None? || s.None? then None else Some(DomainSet(SortedUnique(e.value), SortedUnique(s.value)))
  }

  // ---------------------------------------------------------------- matching

  /** `d` is `s` or ends in a dot and `s`: suffixes end at label boundaries. */
  predicate SuffixMatch(d: Octets, s: Octets)
  {
    d == s || (|d| > |s| && d[|d| - |s| - 1] == DOT && d[|d| - |s|..] == s)
  }

  /** The domains that can match at all. */
  predicate Searchable(d: Octets) { 1 <= |d| <= MAX_NAME && IsAscii(d) }

  /** The plain meaning of a domain set: equal to an exact entry, or covered by a suffix entry. */
  predicate Covers(exact: seq<Octets>, suffixes: seq<Octets>, domain: Octets)
  {
    var d := TrimEnd(domain);
    Searchable(d) && (d in exact || exists s :: s in suffixes && SuffixMatch(d, s))
  }

  predicate FirstDot(d: Octets, k: nat) { k < |d| && d[k] == DOT && NoDot(d[..k]) }

  /** A suffix covers a domain exactly when it is the domain, or covers what follows the first dot. */
  lemma TailStep(d: Octets, s: Octets, k: nat)
    requires FirstDot(d, k)
    ensures SuffixMatch(d, s) <==> d == s || SuffixMatch(d[k + 1..], s)
  {
    var tail := d[k + 1..];
    if SuffixMatch(d, s) && d != s {
      var p := |d| - |s| - 1;
      assert p >= k;
      if p > k { assert tail[|tail| - |s|..] == d[|d| - |s|..]; }
    }
    if SuffixMatch(tail, s) {
      assert tail[|tail| - |s|..] == d[|d| - |s|..];
    }
  }

  lemma NoDotNoTail(d: Octets, s: Octets)
    requires NoDot(d)
    ensures SuffixMatch(d, s) <==> d == s
  {
  }

  method FindDot(d: Octets) returns (k: Option<nat>)
    ensures k.None? ==> NoDot(d)
    ensures k.Some? ==> FirstDot(d, k.value)
  {
    for i := 0 to |d|
      invariant NoDot(d[..i])
    {
      if d[i] == DOT {
        return Some(i);
      }
      assert d[..i + 1] == d[..i] + [d[i]];
    }
    assert d[..|d|] == d;
    k := None;
  }

  /** `DomainSet::matches`: binary searches over the label tails decide exactly the plain meaning. */
  method Matches(set_: DomainSet, domain: Octets) returns (found: bool)
    requires Compiled(set_)
    ensures found <==> Covers(set_.exact, set_.suffixes, domain)
  {
    hide SuffixMatch, FirstDot;
    var d := TrimEnd(domain);
    if d == [] || |d| > MAX_NAME || !IsAscii(d) {
      return false;
    }
    var exact := BinarySearch(set_.exact, d);
    if exact {
      return true;
    }
    var candidate := d;
    while true
      invariant forall s :: s in set_.suffixes ==> (SuffixMatch(d, s) <==> SuffixMatch(candidate, s))
      decreases |candidate|
    {
      var hit := BinarySearch(set_.suffixes, candidate);
      if hit {
        SelfMatch(candidate);
        return true;
      }
      var dot := FindDot(candidate);
      if dot.None? {
        forall s | s in set_.suffixes ensures !SuffixMatch(d, s) {
          NoDotNoTail(candidate, s);
        }
        return false;
      }
      assert dot.value < |candidate| by { DotInside(candidate, dot.value); }
      forall s | s in set_.suffixes
        ensures SuffixMatch(d, s) <==> SuffixMatch(candidate[dot.value + 1..], s)
      {
        TailStep(candidate, s, dot.value);
      }
      candidate := candidate[dot.value + 1..];
    }
  }

  lemma SelfMatch(d: Octets)
    ensures SuffixMatch(d, d)
  {
  }

  lemma DotInside(d: Octets, k: nat)
    requires FirstDot(d, k)
    ensures k < |d|
  {
  }

  /** Compiling keeps the meaning of the normalised entries; their order and repeats do not matter. */
  lemma CompileMeaning(exact: seq<Octets>, suffixes: seq<Octets>, domain: Octets)
    requires Compile(exact, suffixes).Some?
    ensures var c := Compile(exact, suffixes).value;
            && Compiled(c)
            && (Covers(c.exact, c.suffixes, domain)
                <==> Covers(NormalizeAll(exact).value, NormalizeAll(suffixes).value, domain))
  {
    hide SuffixMatch, NormalizeAll, SortedUnique, Searchable;
    SortedUniqueLaws(NormalizeAll(exact).value);
    SortedUniqueLaws(NormalizeAll(suffixes).value);
  }

  /** Names in normal form stay as they are, so for them compiling keeps the plain meaning and cannot fail. */
  lemma {:induction false} NormalNamesStay(names: seq<Octets>)
    requires forall d :: d in names ==> Normal(d)
    ensures NormalizeAll(names) == Some(names)
  {
    hide Normalize;
    if names != [] {
      assert names[0] in names && Normal(names[0]);
      forall d | d in names[1..] ensures Normal(d) { assert d in names; }
      NormalNamesStay(names[1..]);
      assert names == [names[0]] + names[1..];
    }
  }

  // ---------------------------------------------------------------- agreement with suffix rules

  /** `domain_matches_suffix` of crates/core/src/policy.rs; a dot octet is always a character boundary. */
  predicate DomainMatchesSuffix(domain: Octets, suffix: Octets)
  {
    var d, s := TrimEnd(domain), TrimDots(suffix);
    s != [] && (Lower(d) == Lower(s)
                || (|d| > |s| && d[|d| - |s| - 1] == DOT && Lower(d[|d| - |s|..]) == Lower(s)))
  }

  lemma LowerTail(d: Octets, k: nat)
    requires k <= |d|
    ensures Lower(d)[k..] == Lower(d[k..])
    ensures k > 0 ==> (Lower(d)[k - 1] == DOT <==> d[k - 1] == DOT)
  {
  }

  lemma SuffixAt(d: Octets, s: Octets)
    ensures SuffixMatch(d, s) <==>
              |d| >= |s| && d[|d| - |s|..] == s && (|d| == |s| || d[|d| - |s| - 1] == DOT)
  {
    if |d| == |s| { assert d[0..] == d; }
  }

  /** A suffix rule with a lower-case suffix without outer dots is the suffix match of the lower-cased domain. */
  lemma SuffixRuleOf(domain: Octets, s: Octets)
    requires s != [] && IsLower(s) && TrimDots(s) == s
    ensures DomainMatchesSuffix(domain, s) <==> SuffixMatch(Lower(TrimEnd(domain)), s)
  {
    hide Lower, IsLower, SuffixMatch, TrimDots, TrimEnd;
    LowerFixedPoint(s);
    var d := TrimEnd(domain);
    SuffixAt(Lower(d), s);
    if |d| >= |s| {
      LowerTail(d, |d| - |s|);
      if |d| == |s| { assert d[0..] == d; }
    }
  }

  /** In particular with a normal suffix. */
  lemma SuffixRule(domain: Octets, s: Octets)
    requires Normal(s)
    ensures DomainMatchesSuffix(domain, s) <==> SuffixMatch(Lower(TrimEnd(domain)), s)
  {
    hide Lower, IsLower, SuffixMatch, TrimDots, TrimEnd, Normalize, Split;
    NormalIff(s);
    ValidNameHasNoEdgeDots(s);
    SuffixRuleOf(domain, s);
  }

  /**
   * A set entry covers exactly the domains that the suffix rule matches and that are also ASCII, at most 253 octets
   * long, and without upper-case letters in the covered part: the set compares the domain as it is and refuses other
   * domains, the rule ignores case and takes any domain.
   */
  lemma SetAgreesWithRule(domain: Octets, s: Octets)
    requires Normal(s)
    ensures Covers([], [s], domain) <==>
              DomainMatchesSuffix(domain, s) && Searchable(TrimEnd(domain))
              && IsLower(TrimEnd(domain)[SaturatingSub(|TrimEnd(domain)|, |s|)..])
  {
    hide DomainMatchesSuffix, Searchable, SuffixMatch, Normalize;
    SuffixRule(domain, s);
    NormalIff(s);
    CaseMatters(TrimEnd(domain), s);
    assert s in [s];
  }

  lemma CaseMatters(d: Octets, s: Octets)
    requires IsLower(s)
    ensures SuffixMatch(d, s) <==> SuffixMatch(Lower(d), s) && IsLower(d[SaturatingSub(|d|, |s|)..])
  {
    hide Lower, IsLower, SuffixMatch;
    SuffixAt(d, s);
    SuffixAt(Lower(d), s);
    if |d| >= |s| {
      LowerTail(d, |d| - |s|);
      LowerFixedPoint(d[|d| - |s|..]);
      LowerFixedPoint(s);
    }
  }

  lemma LowercaseAgrees(domain: Octets, s: Octets)
    requires Normal(s) && Searchable(TrimEnd(domain)) && IsLower(domain)
    ensures Covers([], [s], domain) <==> DomainMatchesSuffix(domain, s)
  {
    hide DomainMatchesSuffix, Covers, Searchable, Normalize;
    SetAgreesWithRule(domain, s);
  }

  /** The smallest disagreement: the rule `a` matches the domain `A`, the set entry `a` does not. */
  lemma UpperCaseDisagrees()
    ensures Normal([97]) && DomainMatchesSuffix([65], [97]) && !Covers([], [[97]], [65])
  {
    assert Split([97]) == [[97]] by { SplitNoDot([97]); }
    assert Lower([97]) == [97] && Lower([65]) == [97];
  }

  /** Non-ASCII domains too: the rule `a` matches the UTF-8 domain `\u00e9.a`, the set entry `a` does not. */
  lemma NonAsciiDisagrees()
    ensures var d: Octets := [195, 169, 46, 97];
            IsUtf8(d) && IsLower(d) && Normal([97]) && DomainMatchesSuffix(d, [97]) && !Covers([], [[97]], d)
  {
    var d: Octets := [195, 169, 46, 97];
    UpperCaseDisagrees();
    assert d[2..][1..] == [97] && [97][1..] == [];
    assert ScalarWidth(d) == 2 && ScalarWidth(d[2..]) == 1 && ScalarWidth([97]) == 1;
    assert IsUtf8([97]) && IsUtf8(d[2..]);
    assert TrimEnd(d) == d && !IsAsciiByte(d[0]);
    assert d[3..] == [97] && Lower([97]) == [97];
  }

  /** And over-long ones: no set covers a domain of more than 253 octets, whatever its entries. */
  lemma LongDomainsDisagree(prefix: Octets)
    requires |prefix| > MAX_NAME
    ensures DomainMatchesSuffix(prefix + [DOT, 97], [97]) && !Covers([], [[97]], prefix + [DOT, 97])
  {
    var d := prefix + [DOT, 97];
    assert TrimEnd(d) == d && d[|d| - 1..] == [97] && Lower([97]) == [97];
    assert TrimDots([97]) == [97];
  }

  // ---------------------------------------------------------------- filters

  datatype DomainFilter = DomainFilter(blocked: DomainSet, allowed: DomainSet)

  predicate IsBlocked(f: DomainFilter, domain: Octets)
  {
    Covers(f.blocked.exact, f.blocked.suffixes, domain) && !Covers(f.allowed.exact, f.allowed.suffixes, domain)
  }
}
