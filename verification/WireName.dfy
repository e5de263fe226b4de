/**
 * Domain names on the wire (crates/dns/src/wire.rs): the label encoding of section 3.1 of RFC 1035 and the
 * message compression of its section 4.1.4. Octets 192 and above carry the two top bits set, octets 64 to 191
 * one of them, so the source's bit masks are comparisons here.
 */
module WireName {
  import opened Bytes
  import opened Names

  const MAX_DNS_MESSAGE_BYTES := 65_535
  const MAX_DNS_NAME_POINTER_HOPS := 32

  // ---------------------------------------------------------------- encoding

  function LabelOctets(labels: seq<Octets>): Octets
    requires AllValidLabels(labels)
  {
    if labels == [] then [] else [|labels[0]|] + labels[0] + LabelOctets(labels[1..])
  }

  /** The wire form of a name: each label after its length, then the root. */
  function EncodedName(name: Octets): Octets
    requires AllValidLabels(Split(name))
  {
    LabelOctets(Split(name)) + [0]
  }

  datatype NameError = BadLabel | MessageTooLong

  /** `encode_name`: appends the wire form, or refuses when a label is empty or too long, or the message is. */
  method EncodeName(name: Octets, output: Octets) returns (r: Result<Octets, NameError>)
    ensures r == Err(BadLabel) <==> !AllValidLabels(Split(name))
    ensures r == Err(MessageTooLong) <==> AllValidLabels(Split(name))
                                          && |output| + |EncodedName(name)| > MAX_DNS_MESSAGE_BYTES
    ensures r.Ok? ==> r.value == output + EncodedName(name)
  {
    var labels := Split(name);
    var written := output;
    for i := 0 to |labels|
      invariant forall j :: 0 <= j < i ==> ValidLabel(labels[j])
      invariant written == output + LabelOctets(labels[..i])
    {
      if |labels[i]| == 0 || |labels[i]| > MAX_LABEL {
        assert !ValidLabel(labels[i]);
        return Err(BadLabel);
      }
      LabelOctetsAppend(labels[..i], labels[i]);
      assert labels[..i + 1] == labels[..i] + [labels[i]];
      written := written + [|labels[i]|] + labels[i];
    }
    assert labels[..|labels|] == labels;
    written := written + [0];
    assert written == output + EncodedName(name);
    if |written| > MAX_DNS_MESSAGE_BYTES {
      return Err(MessageTooLong);
    }
    return Ok(written);
  }

  lemma {:induction false} LabelOctetsAppend(labels: seq<Octets>, last: Octets)
    requires AllValidLabels(labels) && ValidLabel(last)
    ensures AllValidLabels(labels + [last])
    ensures LabelOctets(labels + [last]) == LabelOctets(labels) + [|last|] + last
  {
    if labels == [] {
      assert labels + [last] == [last];
      assert LabelOctets([last]) == [|last|] + last + LabelOctets([]);
    } else {
      LabelOctetsAppend(labels[1..], last);
      assert (labels + [last])[1..] == labels[1..] + [last];
    }
  }

  /** Lengths replace dots, so the wire form is two octets longer than the text. */
  lemma {:induction false} LabelOctetsLength(labels: seq<Octets>)
    requires labels != [] && AllValidLabels(labels)
    ensures |LabelOctets(labels)| == |Join(labels)| + 1
  {
    if |labels| > 1 {
      LabelOctetsLength(labels[1..]);
    } else {
      assert LabelOctets(labels[1..]) == [];
    }
  }

  lemma EncodedNameLength(name: Octets)
    requires AllValidLabels(Split(name))
    ensures |EncodedName(name)| == |name| + 2
  {
    LabelOctetsLength(Split(name));
    JoinSplit(name);
  }

  // ---------------------------------------------------------------- decoding

  /** What stands at one offset of a name: nothing readable, the root, a label, or a pointer backward. */
  datatype Piece = Bad | Root | Part(part: Octets) | Jump(pointer: nat)

  function PieceAt(m: Octets, at: nat): (p: Piece)
    ensures p.Part? ==> at + 1 + |p.part| <= |m| && 1 <= |p.part| <= MAX_LABEL
    ensures p.Jump? ==> p.pointer < at < |m|
  {
    if at >= |m| then Bad
    else if m[at] >= 192 then
      if at + 1 >= |m| then Bad
      else
        var pointer := (m[at] as int - 192) * 256 + m[at + 1];
        if pointer >= |m| || pointer >= at then Bad else Jump(pointer)
    else if m[at] >= 64 then Bad
    else if m[at] == 0 then Root
    else
      var end := at + 1 + m[at];
      if end > |m| || !IsAscii(m[at + 1..end]) then Bad else Part(m[at + 1..end])
  }

  /** The two octets of a pointer: the top bits and an offset. */
  function PointerOctets(p: nat): Octets requires p < 0x4000 { [192 + p / 256, p % 256] }

  /** Two octets with the top bits set are a pointer if they point backward, and nothing readable otherwise. */
  lemma PointerPieces(pre: Octets, pointer: nat, tail: Octets)
    requires pointer < 0x4000
    ensures PieceAt(pre + PointerOctets(pointer) + tail, |pre|)
            == if pointer < |pre| then Jump(pointer) else Bad
  {
    var m := pre + PointerOctets(pointer) + tail;
    assert m[|pre|] == 192 + pointer / 256 && m[|pre| + 1] == pointer % 256;
  }

  /** The labels found at an offset and the offset after them, or nothing readable. */
  datatype Expansion = Unreadable | Labels(labels: seq<Octets>, next: nat)

  /**
   * Compressed names, recursively: a name is the root, a label followed by a name, or a pointer to a name that
   * starts earlier, with at most `hops` pointers in all. The result is its labels and the offset after the
   * part that stands at `at` itself.
   */
  function Expand(m: Octets, at: nat, hops: nat): Expansion
    decreases hops, |m| - at
  {
    match PieceAt(m, at)
    case Bad => Unreadable
    case Root => Labels([], at + 1)
    case Part(part) => Resume([part], None, Expand(m, at + 1 + |part|, hops))
    case Jump(pointer) =>
      if hops == 0 then Unreadable else Resume([], Some(at + 2), Expand(m, pointer, hops - 1))
  }

  /** Prefixes the labels read so far; a pointer taken on the way fixes where the message goes on. */
  function Resume(read: seq<Octets>, resume: Option<nat>, tail: Expansion): Expansion
  {
    match tail
    case Unreadable => Unreadable
    case Labels(labels, next) => Labels(read + labels, if resume.Some? then resume.value else next)
  }

  /** Readings compose: the labels are appended and the first pointer taken keeps deciding. */
  lemma ResumeResume(a: seq<Octets>, ra: Option<nat>, b: seq<Octets>, rb: Option<nat>, tail: Expansion)
    ensures Resume(a, ra, Resume(b, rb, tail)) == Resume(a + b, if ra.Some? then ra else rb, tail)
  {
    if tail.Labels? { assert a + (b + tail.labels) == (a + b) + tail.labels; }
  }

  lemma {:induction false} ExpandBounds(m: Octets, at: nat, hops: nat)
    requires Expand(m, at, hops).Labels?
    ensures at < Expand(m, at, hops).next <= |m|
    decreases hops, |m| - at
  {
    var piece := PieceAt(m, at);
    if piece.Part? {
      ExpandBounds(m, at + 1 + |piece.part|, hops);
    }
  }

  /** The name that a message holds at an offset, in normal form, and where the message goes on. */
  function NameAt(m: Octets, at: nat): Option<(Octets, nat)>
  {
    match Expand(m, at, MAX_DNS_NAME_POINTER_HOPS)
    case Unreadable => None
    case Labels(labels, next) =>
      if labels == [] || |Join(labels)| > MAX_NAME then None
      else
        match Normalize(Join(labels))
        case None => None
        case Some(name) => Some((name, next))
  }

  lemma ResumeTooLong(read: seq<Octets>, resume: Option<nat>, tail: Expansion)
    requires JoinedLength(read) > MAX_NAME
    ensures var whole := Resume(read, resume, tail); whole.Labels? ==> JoinedLength(whole.labels) > MAX_NAME
  {
    if tail.Labels? { JoinGrows(read, tail.labels); }
  }

  /** What the loop of `decode_name` still finds from a cursor, with everything it has gathered so far. */
  function Follow(m: Octets, at: nat, hops: nat, labels: seq<Octets>, resume: Option<nat>, bytes: nat): Expansion
    decreases hops, |m| - at
  {
    match PieceAt(m, at)
    case Bad => Unreadable
    case Root => Labels(labels, if resume.Some? then resume.value else at + 1)
    case Part(part) =>
      var total := bytes + |part| + if labels == [] then 0 else 1;
      if total > MAX_NAME then Unreadable
      else Follow(m, at + 1 + |part|, hops, labels + [Lower(part)], resume, total)
    case Jump(pointer) =>
      if hops == 0 then Unreadable
      else Follow(m, pointer, hops - 1, labels, if resume.Some? then resume else Some(at + 2), bytes)
  }

  /** Lower-cased labels of a name of at most 253 octets. */
  function Bounded(whole: Expansion): Expansion
  {
    if whole.Unreadable? || JoinedLength(whole.labels) > MAX_NAME then Unreadable
    else Labels(LowerAll(whole.labels), whole.next)
  }

  /** The gathering form and the recursive definition agree from a cursor on. */
  ghost predicate Agree(m: Octets, at: nat, hops: nat, read: seq<Octets>, resume: Option<nat>)
  {
    Follow(m, at, hops, LowerAll(read), resume, JoinedLength(read))
    == Bounded(Resume(read, resume, Expand(m, at, hops)))
  }

  lemma AgreeAtPart(m: Octets, at: nat, hops: nat, read: seq<Octets>, resume: Option<nat>, part: Octets)
    requires PieceAt(m, at) == Part(part) && JoinedLength(read) <= MAX_NAME
    requires JoinedLength(read + [part]) <= MAX_NAME ==> Agree(m, at + 1 + |part|, hops, read + [part], resume)
    ensures Agree(m, at, hops, read, resume)
  {
    var tail := Expand(m, at + 1 + |part|, hops);
    JoinGrows(read, [part]);
    LowerAllAppend(read, part);
    ResumeResume(read, resume, [part], None, tail);
    assert Expand(m, at, hops) == Resume([part], None, tail);
    if JoinedLength(read + [part]) > MAX_NAME {
      ResumeTooLong(read + [part], resume, tail);
    }
  }

  lemma AgreeAtJump(m: Octets, at: nat, hops: nat, read: seq<Octets>, resume: Option<nat>, pointer: nat)
    requires PieceAt(m, at) == Jump(pointer) && hops > 0
    requires Agree(m, pointer, hops - 1, read, if resume.Some? then resume else Some(at + 2))
    ensures Agree(m, at, hops, read, resume)
  {
    ResumeResume(read, resume, [], Some(at + 2), Expand(m, pointer, hops - 1));
    assert read + [] == read;
  }

  lemma {:induction false} FollowIsExpand(m: Octets, at: nat, hops: nat, read: seq<Octets>, resume: Option<nat>)
    requires JoinedLength(read) <= MAX_NAME
    ensures Agree(m, at, hops, read, resume)
    decreases hops, |m| - at
  {
    var piece := PieceAt(m, at);
    if piece.Part? {
      if JoinedLength(read + [piece.part]) <= MAX_NAME {
        FollowIsExpand(m, at + 1 + |piece.part|, hops, read + [piece.part], resume);
      }
      AgreeAtPart(m, at, hops, read, resume, piece.part);
    } else if piece.Jump? && hops > 0 {
      FollowIsExpand(m, piece.pointer, hops - 1, read, if resume.Some? then resume else Some(at + 2));
      AgreeAtJump(m, at, hops, read, resume, piece.pointer);
    } else {
      assert read + [] == read;
    }
  }

  /**
   * The loop of `decode_name`: one moving cursor. It terminates because each pointer uses up a hop and each
   * label moves the cursor towards the end; the backward check alone would not give this.
   */
  method CollectLabels(message: Octets, offset: nat) returns (r: Expansion)
    ensures r == Bounded(Expand(message, offset, MAX_DNS_NAME_POINTER_HOPS))
  {
    var limit := MAX_DNS_NAME_POINTER_HOPS;
    var cursor: nat := offset;
    var resume: Option<nat> := None;
    var labels: seq<Octets> := [];
    var hops := 0;
    var decodedBytes: nat := 0;
    while true
      invariant 0 <= hops <= limit
      invariant Follow(message, offset, limit, [], None, 0)
                == Follow(message, cursor, limit - hops, labels, resume, decodedBytes)
      decreases limit - hops, |message| - cursor
    {
      match PieceAt(message, cursor)
      case Bad =>
        r := Unreadable;
        break;
      case Jump(pointer) =>
        if hops == limit {
          r := Unreadable;
          break;
        }
        if resume.None? {
          resume := Some(cursor + 2);
        }
        cursor := pointer;
        hops := hops + 1;
      case Root =>
        r := Labels(labels, if resume.Some? then resume.value else cursor + 1);
        break;
      case Part(part) =>
        decodedBytes := decodedBytes + |part| + if labels != [] then 1 else 0;
        if decodedBytes > MAX_NAME {
          r := Unreadable;
          break;
        }
        labels := labels + [Lower(part)];
        cursor := cursor + 1 + |part|;
    }
    FollowFromStart(message, offset, limit);
  }

  lemma FollowFromStart(m: Octets, at: nat, hops: nat)
    ensures Follow(m, at, hops, [], None, 0) == Bounded(Expand(m, at, hops))
  {
    FollowIsExpand(m, at, hops, [], None);
    var whole := Expand(m, at, hops);
    assert LowerAll([]) == [] && (whole.Labels? ==> [] + whole.labels == whole.labels);
  }

  /** `decode_name`: exactly the recursive meaning, for every message and every start offset. */
  method DecodeName(message: Octets, offset: nat) returns (r: Option<(Octets, nat)>)
    ensures r == NameAt(message, offset)
  {
    ghost var whole := Expand(message, offset, MAX_DNS_NAME_POINTER_HOPS);
    if whole.Labels? { JoinLength(whole.labels); }
    var collected := CollectLabels(message, offset);
    if collected.Unreadable? {
      return None;
    }
    var Labels(labels, next) := collected;
    if labels == [] {
      return None;
    }
    LowerJoin(whole.labels);
    NormalizeLower(Join(whole.labels));
    var name := Normalize(Join(labels));
    return if name.None? then None else Some((name.value, next));
  }

  // ---------------------------------------------------------------- what decoding promises

  /** From `from`, whole labels lead to offset `to`. */
  ghost predicate LabelsLead(m: Octets, from: nat, to: nat)
    decreases to - from
  {
    from == to || (from < to <= |m| && 0 < m[from] < 64 && LabelsLead(m, from + 1 + m[from], to))
  }

  /** The next offset is just after the terminating zero or the first pointer met on the way from `at`. */
  lemma {:induction false} NextOffset(m: Octets, at: nat, hops: nat)
    requires Expand(m, at, hops).Labels?
    ensures var next := Expand(m, at, hops).next;
            exists stop: nat :: at <= stop < |m| && LabelsLead(m, at, stop)
              && (if m[stop] == 0 then next == stop + 1 else m[stop] >= 192 && next == stop + 2)
    decreases hops, |m| - at
  {
    var piece := PieceAt(m, at);
    if piece.Part? {
      var end := at + 1 + |piece.part|;
      NextOffset(m, end, hops);
      var next := Expand(m, at, hops).next;
      var stop: nat :| end <= stop < |m| && LabelsLead(m, end, stop)
        && (if m[stop] == 0 then next == stop + 1 else m[stop] >= 192 && next == stop + 2);
      assert LabelsLead(m, at, stop);
    } else {
      assert LabelsLead(m, at, at);
    }
  }

  /** Every decoded name is normal, lies at a place the message goes on after, and can be encoded again. */
  lemma DecodedNames(m: Octets, at: nat)
    requires NameAt(m, at).Some?
    ensures var (name, next) := NameAt(m, at).value;
            && at < next <= |m| && Normal(name)
            && AllValidLabels(Split(name)) && |EncodedName(name)| <= MAX_NAME + 2
  {
    var labels := Expand(m, at, MAX_DNS_NAME_POINTER_HOPS).labels;
    ExpandBounds(m, at, MAX_DNS_NAME_POINTER_HOPS);
    NormalizeIsNormal(Join(labels));
    var name := NameAt(m, at).value.0;
    NormalIff(name);
    EncodedNameLength(name);
  }

  /** The octets from `at` on are these labels, uncompressed, then the root. */
  ghost predicate Spells(m: Octets, at: nat, labels: seq<Octets>)
    decreases |labels|
  {
    if labels == [] then at < |m| && m[at] == 0
    else PieceAt(m, at) == Part(labels[0]) && Spells(m, at + 1 + |labels[0]|, labels[1..])
  }

  lemma PartAt(pre: Octets, part: Octets, tail: Octets)
    requires ValidLabel(part) && IsAscii(part)
    ensures PieceAt((pre + ([|part|] + part)) + tail, |pre|) == Part(part)
  {
    var m := (pre + ([|part|] + part)) + tail;
    assert m[|pre|] == |part|;
    assert m[|pre| + 1..|pre| + 1 + |part|] == part;
  }

  lemma Reassociate(pre: Octets, head: Octets, tail: Octets, rest: Octets)
    ensures pre + ((head + tail) + rest) == (pre + head) + (tail + rest)
  {
  }

  lemma {:induction false} EncodingSpells(pre: Octets, labels: seq<Octets>, post: Octets)
    requires AllValidLabels(labels) && forall i :: 0 <= i < |labels| ==> IsAscii(labels[i])
    requires post != [] && post[0] == 0
    ensures Spells(pre + (LabelOctets(labels) + post), |pre|, labels)
    decreases |labels|
  {
    hide PieceAt, IsAscii;
    if labels == [] {
      assert pre + (LabelOctets(labels) + post) == pre + post;
    } else {
      assert ValidLabel(labels[0]);
      var head := [|labels[0]|] + labels[0];
      var tail := LabelOctets(labels[1..]);
      EncodingSpells(pre + head, labels[1..], post);
      Reassociate(pre, head, tail, post);
      PartAt(pre, labels[0], tail + post);
      hide LabelOctets;
      assert |pre + head| == |pre| + 1 + |labels[0]|;
    }
  }

  lemma {:induction false} SpelledExpands(m: Octets, at: nat, labels: seq<Octets>, hops: nat)
    requires Spells(m, at, labels)
    ensures Expand(m, at, hops) == Labels(labels, at + (if labels == [] then 0 else JoinedLength(labels) + 1) + 1)
    decreases |labels|
  {
    if labels != [] {
      var next := at + 1 + |labels[0]|;
      SpelledExpands(m, next, labels[1..], hops);
      assert Expand(m, at, hops) == Resume([labels[0]], None, Expand(m, next, hops));
      assert labels == [labels[0]] + labels[1..];
    }
  }

  lemma ExpandEncodedName(pre: Octets, name: Octets, post: Octets, hops: nat)
    requires ValidName(name)
    ensures Expand(pre + EncodedName(name) + post, |pre|, hops) == Labels(Split(name), |pre| + |name| + 2)
  {
    var labels := Split(name);
    SplitParts(name);
    JoinSplit(name);
    JoinLength(labels);
    EncodingSpells(pre, labels, [0] + post);
    assert pre + EncodedName(name) + post == pre + (LabelOctets(labels) + ([0] + post));
    SpelledExpands(pre + EncodedName(name) + post, |pre|, labels, hops);
  }

  /** Round trip: a normal name, encoded anywhere in any message, decodes to itself and ends where it ends. */
  lemma NameRoundTrip(pre: Octets, name: Octets, post: Octets)
    requires Normal(name)
    ensures ValidName(name)
    ensures NameAt(pre + EncodedName(name) + post, |pre|) == Some((name, |pre| + |name| + 2))
  {
    hide Expand, EncodedName, Split, Join, Normalize;
    NormalIff(name);
    ExpandEncodedName(pre, name, post, MAX_DNS_NAME_POINTER_HOPS);
    JoinSplit(name);
  }

  /**
   * Why the backward check is not enough for termination: a pointer may lead back to labels that run forward
   * to that same pointer. Only the hop bound stops this decoding, and it does.
   */
  lemma BackwardPointerMayLoop(hops: nat)
    ensures var m: Octets := [1, 97, 192, 0];
            PieceAt(m, 2) == Jump(0) && LabelsLead(m, 0, 2) && Expand(m, 0, hops) == Unreadable
    decreases hops
  {
    var m: Octets := [1, 97, 192, 0];
    assert LabelsLead(m, 2, 2) && LabelsLead(m, 0, 2);
    if hops > 0 { BackwardPointerMayLoop(hops - 1); }
  }

  // ---------------------------------------------------------------- chains of pointers

  /** Where pointer `k` (from 1) of a chain stands, and where it points: to the pointer before it, or to the name. */
  function PointerPlace(start: nat, k: nat): nat requires k > 0 { start + 2 * (k - 1) }

  function PointerTarget(start: nat, k: nat): nat requires k > 0 { if k == 1 then 0 else PointerPlace(start, k - 1) }

  /** A name followed by `n` pointers, each to the one before it. */
  function Chain(name: Octets, n: nat): (m: Octets)
    requires |name| + 2 * n <= 0x4000
    ensures |m| == |name| + 2 * n
  {
    if n == 0 then name
    else
      var p := PointerTarget(|name|, n);
      Chain(name, n - 1) + PointerOctets(p)
  }

  lemma {:induction false} ChainPrefix(name: Octets, k: nat, n: nat)
    requires k <= n && |name| + 2 * n <= 0x4000
    ensures Chain(name, k) <= Chain(name, n)
    decreases n
  {
    if k < n { ChainPrefix(name, k, n - 1); }
  }

  lemma ChainPiece(name: Octets, k: nat, n: nat)
    requires 0 < k <= n && name != [] && |name| + 2 * n <= 0x4000
    ensures PieceAt(Chain(name, n), PointerPlace(|name|, k)) == Jump(PointerTarget(|name|, k))
  {
    hide PieceAt, PointerOctets;
    var m, before, p := Chain(name, n), Chain(name, k - 1), PointerTarget(|name|, k);
    ChainPrefix(name, k, n);
    assert Chain(name, k) == before + PointerOctets(p);
    hide Chain;
    var tail := m[|name| + 2 * k..];
    assert m == Chain(name, k) + tail;
    PointerPieces(before, p, tail);
  }

  lemma {:induction false} ChainExpands(name: Octets, labels: seq<Octets>, k: nat, n: nat, hops: nat)
    requires 0 < k <= n && name != [] && |name| + 2 * n <= 0x4000
    requires forall h: nat :: Expand(Chain(name, n), 0, h).Labels? && Expand(Chain(name, n), 0, h).labels == labels
    ensures Expand(Chain(name, n), PointerPlace(|name|, k), hops)
            == if k <= hops then Labels(labels, PointerPlace(|name|, k) + 2) else Unreadable
    decreases k
  {
    hide PieceAt, Chain;
    ChainPiece(name, k, n);
    var m, at := Chain(name, n), PointerPlace(|name|, k);
    if hops > 0 {
      if k > 1 { ChainExpands(name, labels, k - 1, n, hops - 1); }
      var tail := Expand(m, PointerTarget(|name|, k), hops - 1);
      assert Expand(m, at, hops) == Resume([], Some(at + 2), tail);
      if tail.Labels? { assert [] + tail.labels == tail.labels; }
    }
  }

  /** A name behind a chain of pointers is read if and only if the chain has at most 32 of them. */
  lemma PointerChains(name: Octets, n: nat)
    requires Normal(name) && AllValidLabels(Split(name)) && 0 < n && |name| + 2 + 2 * n <= 0x4000
    ensures |EncodedName(name)| == |name| + 2
    ensures var at := PointerPlace(|name| + 2, n);
            NameAt(Chain(EncodedName(name), n), at) == if n <= 32 then Some((name, at + 2)) else None
  {
    hide EncodedName, Normalize, Split, Join, Expand;
    NormalIff(name);
    EncodedNameLength(name);
    JoinSplit(name);
    var encoded := EncodedName(name);
    var m := Chain(encoded, n);
    ChainPrefix(encoded, 0, n);
    forall h: nat ensures Expand(m, 0, h) == Labels(Split(name), |name| + 2) {
      ExpandEncodedName([], name, m[|encoded|..], h);
      assert m == [] + encoded + m[|encoded|..];
    }
    ChainExpands(encoded, Split(name), n, n, MAX_DNS_NAME_POINTER_HOPS);
  }
}
