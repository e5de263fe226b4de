/**
 * Host names as dot-separated labels. `normalize_name` of crates/dns/src/lib.rs, `normalize_domain` of
 * crates/core/src/domain_set.rs and `parse_domain` of crates/compat/src/lib.rs are this one function.
 */
module Names {
  import opened Bytes

  const MAX_NAME := 253
  const MAX_LABEL := 63

  /** `split('.')`: at least one label, labels may be empty. */
  function Split(s: Octets): (r: seq<Octets>)
    ensures |r| >= 1
  {
    if s == [] then [[]]
    else
      var r := Split(s[1..]);
      if s[0] == DOT then [[]] + r else [[s[0]] + r[0]] + r[1..]
  }

  /** `join(".")`. */
  function Join(labels: seq<Octets>): Octets
  {
    if labels == [] then [] else if |labels| == 1 then labels[0] else labels[0] + [DOT] + Join(labels[1..])
  }

  predicate ValidLabel(part: Octets) { 1 <= |part| <= MAX_LABEL }

  predicate AllValidLabels(labels: seq<Octets>) { forall i :: 0 <= i < |labels| ==> ValidLabel(labels[i]) }

  predicate ValidName(name: Octets)
  {
    1 <= |name| <= MAX_NAME && IsAscii(name) && AllValidLabels(Split(name))
  }

  function Normalize(name: Octets): Option<Octets>
  {
    var n := Lower(TrimDots(name));
    if ValidName(n) then Some(n) else None
  }

  /** The names that normalisation leaves alone. */
  predicate Normal(name: Octets) { Normalize(name) == Some(name) }

  predicate NoDot(s: Octets) { DOT !in s }

  // ---------------------------------------------------------------- split and join

  lemma {:induction false} JoinSplit(s: Octets)
    ensures Join(Split(s)) == s
  {
    if s != [] {
      JoinSplit(s[1..]);
      var r := Split(s[1..]);
      if s[0] == DOT {
        assert Split(s)[1..] == r;
      } else {
        assert Split(s)[1..] == r[1..];
      }
    }
  }

  /** Every label of a split is free of dots, keeps the octets of the whole, and their count is bounded by it. */
  lemma {:induction false} SplitParts(s: Octets)
    ensures forall i :: 0 <= i < |Split(s)| ==> NoDot(Split(s)[i])
    ensures IsAscii(s) ==> forall i :: 0 <= i < |Split(s)| ==> IsAscii(Split(s)[i])
    ensures |Split(s)| <= |s| + 1
  {
    if s != [] {
      SplitParts(s[1..]);
      var r := Split(s[1..]);
      var parts := Split(s);
      if s[0] == DOT {
        assert parts[1..] == r;
        forall i | 0 <= i < |parts| ensures NoDot(parts[i]) && (IsAscii(s) ==> IsAscii(parts[i])) {
          if i > 0 { assert parts[i] == r[i - 1]; }
        }
      } else {
        forall i | 0 <= i < |parts| ensures NoDot(parts[i]) && (IsAscii(s) ==> IsAscii(parts[i])) {
          if i > 0 { assert parts[i] == r[i]; } else { assert NoDot(r[0]); }
        }
      }
    }
  }

  /** A text without dots is its own only label. */
  lemma {:induction false} SplitNoDot(a: Octets)
    requires NoDot(a)
    ensures Split(a) == [a]
  {
    if a != [] {
      assert a[0] in a && a == [a[0]] + a[1..];
      SplitNoDot(a[1..]);
    }
  }

  lemma {:induction false} JoinGrows(a: seq<Octets>, b: seq<Octets>)
    ensures JoinedLength(a + b) >= JoinedLength(a)
    ensures |b| == 1 ==> JoinedLength(a + b) == JoinedLength(a) + |b[0]| + if a == [] then 0 else 1
  {
    if a == [] {
      assert a + b == b;
    } else if |a| == 1 {
      assert (a + b)[1..] == b;
    } else {
      JoinGrows(a[1..], b);
      assert (a + b)[1..] == a[1..] + b;
    }
  }

  /** The length of the joined text, without building it. */
  function JoinedLength(labels: seq<Octets>): nat
  {
    if labels == [] then 0 else if |labels| == 1 then |labels[0]| else |labels[0]| + 1 + JoinedLength(labels[1..])
  }

  lemma {:induction false} JoinLength(labels: seq<Octets>)
    ensures |Join(labels)| == JoinedLength(labels)
  {
    if |labels| > 1 { JoinLength(labels[1..]); }
  }

  // ---------------------------------------------------------------- normal names

  lemma {:induction false} LastLabel(s: Octets)
    requires s != [] && s[|s| - 1] == DOT
    ensures var r := Split(s); r[|r| - 1] == []
  {
    if |s| > 1 {
      LastLabel(s[1..]);
    } else {
      assert s[1..] == [];
    }
  }

  lemma ValidNameHasNoEdgeDots(name: Octets)
    requires ValidName(name)
    ensures name[0] != DOT && name[|name| - 1] != DOT && TrimDots(name) == name
  {
    assert ValidLabel(Split(name)[|Split(name)| - 1]);
    assert ValidLabel(Split(name)[0]);
    if name[|name| - 1] == DOT {
      LastLabel(name);
    }
  }

  lemma ValidNameMeans(name: Octets)
    ensures ValidName(name) <==>
              1 <= |name| <= 253 && IsAscii(name) && forall i :: 0 <= i < |Split(name)| ==> 1 <= |Split(name)[i]| <= 63
  {
    hide Split;
    if forall i :: 0 <= i < |Split(name)| ==> 1 <= |Split(name)[i]| <= 63 {
      forall i | 0 <= i < |Split(name)| ensures ValidLabel(Split(name)[i]) { }
    } else {
      var i :| 0 <= i < |Split(name)| && !(1 <= |Split(name)[i]| <= 63);
      assert !ValidLabel(Split(name)[i]);
    }
  }

  /**
   * The fixed points of normalisation are exactly the valid names without upper-case letters: ASCII, 1 to 253 octets,
   * labels of 1 to 63 octets.
   */
  lemma NormalIff(name: Octets)
    ensures Normal(name) <==> ValidName(name) && IsLower(name)
    ensures Normal(name) <==>
              1 <= |name| <= 253 && IsAscii(name) && IsLower(name)
              && forall i :: 0 <= i < |Split(name)| ==> 1 <= |Split(name)[i]| <= 63
  {
    LowerFixedPoint(name);
    LowerFixedPoint(TrimDots(name));
    ValidNameMeans(name);
    if ValidName(name) { ValidNameHasNoEdgeDots(name); }
    hide Split;
  }

  /** Outer dots and upper case do not matter: a normal name is found again behind both. */
  lemma NormalizeDropsDots(before: Octets, name: Octets, after: Octets)
    requires AllDots(before) && AllDots(after) && Normal(Lower(name)) && name != []
    ensures Normalize(before + name + after) == Some(Lower(name))
  {
    NormalIff(Lower(name));
    ValidNameHasNoEdgeDots(Lower(name));
    assert name[0] != DOT && name[|name| - 1] != DOT by {
      assert Lower(name)[0] == LowerByte(name[0]) && Lower(name)[|name| - 1] == LowerByte(name[|name| - 1]);
    }
    TrimDotsExact(before, name, after);
  }

  lemma NormalizeIsNormal(name: Octets)
    ensures Normalize(name).Some? ==> Normal(Normalize(name).value)
  {
    if Normalize(name).Some? {
      LowerFixedPoint(TrimDots(name));
      NormalIff(Normalize(name).value);
    }
  }

  // ---------------------------------------------------------------- lower case commutes with the rest

  function LowerAll(labels: seq<Octets>): seq<Octets>
  {
    seq(|labels|, i requires 0 <= i < |labels| => Lower(labels[i]))
  }

  lemma LowerAllAppend(labels: seq<Octets>, last: Octets)
    ensures LowerAll(labels + [last]) == LowerAll(labels) + [Lower(last)]
  {
  }

  lemma {:induction false} LowerJoin(labels: seq<Octets>)
    ensures Join(LowerAll(labels)) == Lower(Join(labels))
  {
    if |labels| > 1 {
      LowerJoin(labels[1..]);
      assert LowerAll(labels)[1..] == LowerAll(labels[1..]);
    }
  }

  lemma {:induction false} LowerTrimEnd(s: Octets)
    ensures TrimEnd(Lower(s)) == Lower(TrimEnd(s))
    decreases |s|
  {
    if |s| > 0 && s[|s| - 1] == DOT {
      LowerTrimEnd(s[..|s| - 1]);
      assert Lower(s)[..|s| - 1] == Lower(s[..|s| - 1]);
    }
  }

  lemma {:induction false} LowerTrimStart(s: Octets)
    ensures TrimStart(Lower(s)) == Lower(TrimStart(s))
    decreases |s|
  {
    if |s| > 0 && s[0] == DOT {
      LowerTrimStart(s[1..]);
      assert Lower(s)[1..] == Lower(s[1..]);
      assert TrimStart(Lower(s)) == TrimStart(Lower(s)[1..]);
    }
  }

  /** Lowering the labels before joining them does not change the normal form. */
  lemma NormalizeLower(s: Octets)
    ensures Normalize(Lower(s)) == Normalize(s)
  {
    LowerTrimEnd(s);
    LowerTrimStart(TrimEnd(s));
    LowerFixedPoint(TrimDots(s));
    assert Lower(Lower(TrimDots(s))) == Lower(TrimDots(s)) by { LowerFixedPoint(Lower(TrimDots(s))); }
    assert TrimDots(Lower(s)) == Lower(TrimDots(s));
  }
}
