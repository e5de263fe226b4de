/** The bounded, duplicate-free address lists of crates/dns/src/lib.rs. */
module Addresses {
  import opened Net

  const MAX_RESOLVED_ADDRESSES := 16

  predicate Distinct(s: seq<Ip>) { forall i, j :: 0 <= i < j < |s| ==> s[i] != s[j] }

  /** The known addresses followed by each further one at its first place. */
  function Added(known: seq<Ip>, more: seq<Ip>): seq<Ip>
    decreases |more|
  {
    if more == [] then known
    else Added(if more[0] in known then known else known + [more[0]], more[1..])
  }

  method Add(known: seq<Ip>, more: seq<Ip>) returns (r: seq<Ip>)
    ensures r == Added(known, more)
  {
    r := known;
    for i := 0 to |more|
      invariant Added(known, more) == Added(r, more[i..])
    {
      assert more[i..][1..] == more[i + 1..];
      if more[i] !in r {
        r := r + [more[i]];
      }
    }
  }

  lemma NextLaws(known: seq<Ip>, one: Ip)
    ensures var next := if one in known then known else known + [one];
            known <= next && (forall x :: x in next <==> x in known || x == one)
            && (Distinct(known) ==> Distinct(next))
  {
  }

  lemma {:induction false} AddedLaws(known: seq<Ip>, more: seq<Ip>)
    ensures known <= Added(known, more) && |Added(known, more)| <= |known| + |more|
    ensures forall x :: x in Added(known, more) <==> x in known || x in more
    ensures Distinct(known) ==> Distinct(Added(known, more))
    decreases |more|
  {
    if more != [] {
      var next := if more[0] in known then known else known + [more[0]];
      NextLaws(known, more[0]);
      hide Distinct;
      AddedLaws(next, more[1..]);
      forall x ensures x in more <==> x == more[0] || x in more[1..] { }
    }
  }

  /** A list without repeats is added as it is. */
  lemma {:induction false} AddedDistinct(known: seq<Ip>, more: seq<Ip>)
    requires Distinct(known + more)
    ensures Added(known, more) == known + more
    decreases |more|
  {
    if more == [] {
      assert known + more == known;
    } else {
      assert (known + [more[0]]) + more[1..] == known + more;
      assert more[0] !in known by {
        assert (known + more)[|known|] == more[0];
        assert forall i :: 0 <= i < |known| ==> (known + more)[i] == known[i];
      }
      AddedDistinct(known + [more[0]], more[1..]);
    }
  }

  lemma {:induction false} AddedOneMore(known: seq<Ip>, more: seq<Ip>, x: Ip)
    ensures var r := Added(known, more); Added(known, more + [x]) == if x in r then r else r + [x]
    decreases |more|
  {
    if more == [] {
      assert more + [x] == [x] && [x][1..] == [];
    } else {
      assert (more + [x])[1..] == more[1..] + [x];
      AddedOneMore(if more[0] in known then known else known + [more[0]], more[1..], x);
    }
  }

  function FirstSixteen(s: seq<Ip>): seq<Ip>
  {
    if |s| <= MAX_RESOLVED_ADDRESSES then s else s[..MAX_RESOLVED_ADDRESSES]
  }

  /** What `deduplicate_bounded` keeps. */
  function Dedup(s: seq<Ip>): seq<Ip> { Added([], FirstSixteen(s)) }

  method DeduplicateBounded(addresses: seq<Ip>) returns (r: seq<Ip>)
    ensures r == Dedup(addresses)
  {
    r := Add([], FirstSixteen(addresses));
  }

  /** At most 16 distinct addresses, exactly those among the first 16 given; a second pass changes nothing. */
  lemma DedupLaws(s: seq<Ip>)
    ensures Distinct(Dedup(s)) && |Dedup(s)| <= MAX_RESOLVED_ADDRESSES
    ensures forall x :: x in Dedup(s) <==> x in FirstSixteen(s)
    ensures Distinct(s) ==> Dedup(s) == FirstSixteen(s)
    ensures Dedup(Dedup(s)) == Dedup(s)
    ensures Dedup(s) == [] <==> s == []
  {
    hide Added, Distinct, FirstSixteen;
    PrefixLaws(s);
    AddedLaws([], FirstSixteen(s));
    PrefixLaws(Dedup(s));
    assert [] + FirstSixteen(s) == FirstSixteen(s) && [] + Dedup(s) == Dedup(s);
    NoneDistinct();
    AddedDistinct([], Dedup(s));
    if Distinct(s) { AddedDistinct([], FirstSixteen(s)); }
    if s != [] { assert FirstSixteen(s)[0] in FirstSixteen(s); }
  }

  lemma NoneDistinct()
    ensures Distinct([])
  {
  }

  lemma PrefixLaws(s: seq<Ip>)
    ensures FirstSixteen(s) <= s && |FirstSixteen(s)| == (if |s| <= 16 then |s| else 16)
    ensures FirstSixteen(s) == [] <==> s == []
    ensures |s| <= MAX_RESOLVED_ADDRESSES ==> FirstSixteen(s) == s
    ensures Distinct(s) ==> Distinct(FirstSixteen(s))
  {
  }
}
