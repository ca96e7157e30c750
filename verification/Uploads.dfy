/**
 internal/upload/upload.go: the arithmetic of multipart uploads, resuming one, and the check before assembly.
 */
module Uploads {

  import opened Integers

  const MIN_PART_SIZE: int := 8 * 1024 * 1024
  const MAX_PARTS: int := 10000
  const MAX_UPLOAD_BYTES: int := 5 * 1024 * 1024 * 1024 * 1024
  const MAX_URLS: nat := 100

  // ---- PartSizeFor ----

  function PartCount(size: int, part: int): int
    requires part > 0
  {
    RoundUp(size, part)
  }

  function Pow2(k: nat): (p: nat)
    ensures p >= 1
  {
    if k == 0 then 1 else 2 * Pow2(k - 1)
  }

  /**
   The part size ends as the least 8 MiB x 2^k that keeps the count within the provider's limit; for every legal
   object size that stays below 2^31.
   */
  method PartSizeFor(size: int) returns (part: int)
    ensures exists k: nat :: part == 0x80_0000 * Pow2(k)
                             && forall i: nat | i < k :: PartCount(size, 0x80_0000 * Pow2(i)) > 10_000
    ensures part > 0 && PartCount(size, part) <= 10_000
    ensures size <= 5 * 0x100_0000_0000 ==> part <= 0x4000_0000
  {
    part := MIN_PART_SIZE;
    ghost var k: nat := 0;
    while PartCount(size, part) > MAX_PARTS
      invariant part == MIN_PART_SIZE * Pow2(k) && part >= MIN_PART_SIZE
      invariant forall i: nat | i < k :: PartCount(size, MIN_PART_SIZE * Pow2(i)) > MAX_PARTS
      invariant size <= MAX_UPLOAD_BYTES ==> part <= 0x4000_0000
      decreases size - MAX_PARTS * part
    {
      if size <= MAX_PARTS * part {
        RoundUpFits(size, part, MAX_PARTS);
      }
      if size <= MAX_UPLOAD_BYTES && part > 0x2000_0000 {
        PowerGap(k);
      }
      part := part * 2;
      k := k + 1;
    }
  }

  /** The sizes in question double from 2^23, so one above 2^29 is at least 2^30. */
  lemma PowerGap(k: nat)
    ensures MIN_PART_SIZE * Pow2(k) > 0x2000_0000 ==> MIN_PART_SIZE * Pow2(k) >= 0x4000_0000
  {
    if k >= 7 {
      PowerGrows(7, k);
    } else {
      PowerGrows(k, 6);
    }
    assert Pow2(7) == 2 * Pow2(6) && Pow2(6) == 2 * Pow2(5) && Pow2(5) == 2 * Pow2(4);
    assert Pow2(4) == 2 * Pow2(3) && Pow2(3) == 2 * Pow2(2) && Pow2(2) == 4;
  }

  lemma {:induction false} PowerGrows(i: nat, k: nat)
    requires i <= k
    ensures Pow2(i) <= Pow2(k)
  {
    if i < k { PowerGrows(i, k - 1); }
  }

  // ---- the parts tile the object ----

  /** The size part n must have. */
  function Want(n: int, count: int, partSize: int, size: int): int {
    if n == count then size - partSize * (count - 1) else partSize
  }

  function Offset(n: int, partSize: int): int {
    (n - 1) * partSize
  }

  /** Byte b of the object lies in part n. */
  predicate Covers(n: int, count: int, partSize: int, size: int, b: int) {
    Offset(n, partSize) <= b < Offset(n, partSize) + Want(n, count, partSize, size)
  }

  /** Part n is not empty, not too large, and inside the object. */
  ghost predicate Inside(n: int, count: int, partSize: int, size: int) {
    && 1 <= Want(n, count, partSize, size) <= partSize
    && 0 <= Offset(n, partSize) && Offset(n, partSize) + Want(n, count, partSize, size) <= size
  }

  /** Part n ends where the next one begins. */
  ghost predicate Abuts(n: int, count: int, partSize: int, size: int) {
    Offset(n, partSize) + Want(n, count, partSize, size) == Offset(n + 1, partSize)
  }

  /** Byte b is in one part, and in no other. */
  ghost predicate InOnePart(b: int, count: int, partSize: int, size: int) {
    exists m :: 1 <= m <= count && Covers(m, count, partSize, size, b)
                && forall n | 1 <= n <= count && Covers(n, count, partSize, size, b) :: n == m
  }

  /** The parts tile the object: every byte is in exactly one, and none reaches outside. */
  lemma PartsTile(size: int, partSize: int)
    requires size >= 1 && partSize >= 1
    ensures var count := PartCount(size, partSize);
            && (forall n | 1 <= n <= count :: Inside(n, count, partSize, size))
            && (forall n | 1 <= n < count :: Abuts(n, count, partSize, size))
            && (forall b | 0 <= b < size :: InOnePart(b, count, partSize, size))
  {
    var count := PartCount(size, partSize);
    RoundUpIsCeiling(size, partSize);
    forall n | 1 <= n <= count ensures Inside(n, count, partSize, size) {
      PartInside(n, count, partSize, size);
    }
    forall n | 1 <= n < count ensures Abuts(n, count, partSize, size) {
      PartAbuts(n, count, partSize, size);
    }
    forall b | 0 <= b < size ensures InOnePart(b, count, partSize, size) {
      ByteInOnePart(b, count, partSize, size);
    }
  }

  lemma PartAbuts(n: int, count: int, partSize: int, size: int)
    requires n < count
    ensures Abuts(n, count, partSize, size)
  {
    assert (n - 1) * partSize + partSize == n * partSize;
  }

  lemma ByteInOnePart(b: int, count: int, partSize: int, size: int)
    requires 0 <= b < size && partSize >= 1 && partSize * (count - 1) < size <= partSize * count
    ensures InOnePart(b, count, partSize, size)
  {
    var m := b / partSize + 1;
    ByteInPart(b, count, partSize, size);
    forall n | 1 <= n <= count && Covers(n, count, partSize, size, b) ensures n == m {
      PartInside(n, count, partSize, size);
      assert (n - 1) * partSize == partSize * (n - 1);
      QuotientUnique(b, partSize, n - 1);
    }
  }

  lemma PartInside(n: int, count: int, partSize: int, size: int)
    requires 1 <= n <= count && partSize >= 1 && partSize * (count - 1) < size <= partSize * count
    ensures Inside(n, count, partSize, size)
  {
    MulMonotone(partSize, 0, n - 1);
    assert partSize * count == partSize * (count - 1) + partSize;
    if n < count {
      MulMonotone(partSize, n, count - 1);
      assert partSize * n == partSize * (n - 1) + partSize;
    }
  }

  lemma ByteInPart(b: int, count: int, partSize: int, size: int)
    requires 0 <= b < size && partSize >= 1 && partSize * (count - 1) < size <= partSize * count
    ensures 1 <= b / partSize + 1 <= count && Covers(b / partSize + 1, count, partSize, size, b)
  {
    var q := b / partSize;
    assert b == partSize * q + b % partSize;
    if q >= count {
      MulMonotone(partSize, count, q);
    }
    assert q * partSize == partSize * q;
  }

  // ---- verifyParts ----

  datatype Part = Part(number: int, etag: string, size: int)

  /** The map the first loop fills: a part listed twice counts as listed last. */
  function ByNumber(held: seq<Part>): map<int, Part> {
    if held == [] then map[]
    else ByNumber(held[..|held| - 1])[held[|held| - 1].number := held[|held| - 1]]
  }

  /** Status and the check before assembly see the same part numbers. */
  lemma {:induction false} ByNumberKeys(held: seq<Part>)
    ensures ByNumber(held).Keys == set i | 0 <= i < |held| :: held[i].number
  {
    if held != [] {
      var front := held[..|held| - 1];
      ByNumberKeys(front);
      assert forall i | 0 <= i < |front| :: front[i] == held[i];
    }
  }

  datatype Verdict = Assemble(parts: seq<Part>) | WrongSize(number: int) | Incomplete(missing: seq<int>)

  predicate RightSize(parts: map<int, Part>, n: int, count: int, partSize: int, size: int) {
    n in parts && parts[n].size == Want(n, count, partSize, size)
  }

  /** Every part is there and has the size that tiles the object. */
  ghost predicate Whole(parts: map<int, Part>, count: int, partSize: int, size: int) {
    forall n | 1 <= n <= count :: RightSize(parts, n, count, partSize, size)
  }

  /** What the check promises about the parts it was given. */
  ghost predicate Verdicts(parts: map<int, Part>, count: int, partSize: int, size: int, v: Verdict) {
    match v
    case Assemble(ps) =>
      && |ps| == (if count > 0 then count else 0)
      && (forall n | 1 <= n <= count :: RightSize(parts, n, count, partSize, size) && ps[n - 1] == parts[n])
    case WrongSize(k) =>
      && 1 <= k <= count && k in parts && !RightSize(parts, k, count, partSize, size)
      && (forall n | 1 <= n < k && n in parts :: RightSize(parts, n, count, partSize, size))
    case Incomplete(missing) =>
      && missing != [] && missing == MissingFrom(parts.Keys, 1, count)
      && (forall n | 1 <= n <= count && n in parts :: RightSize(parts, n, count, partSize, size))
  }

  /**
   The check before assembly hands over parts 1..count in order if they are all there with the sizes that tile the
   object; otherwise it names the first part of a wrong size, or else every missing part.
   */
  method VerifyParts(held: seq<Part>, count: int, partSize: int, size: int) returns (v: Verdict)
    ensures Verdicts(ByNumber(held), count, partSize, size, v)
  {
    var byNumber := IndexParts(held);
    v := CheckParts(byNumber, count, partSize, size);
  }

  method IndexParts(held: seq<Part>) returns (byNumber: map<int, Part>)
    ensures byNumber == ByNumber(held)
  {
    byNumber := map[];
    for i := 0 to |held|
      invariant byNumber == ByNumber(held[..i])
    {
      assert held[..i + 1][..i] == held[..i];
      byNumber := byNumber[held[i].number := held[i]];
    }
    assert held[..|held|] == held;
  }

  method CheckParts(byNumber: map<int, Part>, count: int, partSize: int, size: int) returns (v: Verdict)
    ensures Verdicts(byNumber, count, partSize, size, v)
  {
    var parts: seq<Part>, missing: seq<int> := [], [];
    var n := 1;
    while n <= count
      invariant 1 <= n && (count >= 1 ==> n <= count + 1) && (count < 1 ==> n == 1)
      invariant missing == MissingFrom(byNumber.Keys, 1, n - 1)
      invariant missing == [] ==> |parts| == n - 1 && forall k | 1 <= k < n :: k in byNumber && parts[k - 1] == byNumber[k]
      invariant forall k | 1 <= k < n && k in byNumber :: RightSize(byNumber, k, count, partSize, size)
      decreases count - n
    {
      MissingGrows(byNumber.Keys, 1, n - 1);
      if n !in byNumber {
        missing := missing + [n];
        n := n + 1;
        continue;
      }
      var p := byNumber[n];
      var want := partSize;
      if n == count {
        want := size - partSize * (count - 1);
      }
      if p.size != want {
        return WrongSize(n);
      }
      parts := parts + [p];
      n := n + 1;
    }
    if |missing| > 0 {
      return Incomplete(missing);
    }
    return Assemble(parts);
  }

  /** So the check passes exactly when every part is there and has the right size. */
  lemma PassesExactlyWhenWhole(parts: map<int, Part>, count: int, partSize: int, size: int, v: Verdict)
    requires Verdicts(parts, count, partSize, size, v)
    ensures v.Assemble? <==> Whole(parts, count, partSize, size)
  {
    if v.Incomplete? {
      MissingExactly(parts.Keys, 1, count, v.missing[0]);
      assert v.missing[0] in v.missing;
      assert !RightSize(parts, v.missing[0], count, partSize, size);
    }
  }

  function TotalSize(parts: seq<Part>): int {
    if parts == [] then 0 else TotalSize(parts[..|parts| - 1]) + parts[|parts| - 1].size
  }

  lemma {:induction false} PrefixTotal(parts: seq<Part>, count: int, partSize: int, size: int)
    requires |parts| < count && forall i | 0 <= i < |parts| :: parts[i].size == Want(i + 1, count, partSize, size)
    ensures TotalSize(parts) == partSize * |parts|
  {
    if parts != [] {
      PrefixTotal(parts[..|parts| - 1], count, partSize, size);
      assert partSize * |parts| == partSize * (|parts| - 1) + partSize;
    }
  }

  /** The assembled parts add up to the declared size. */
  lemma AssembledSize(parts: map<int, Part>, partSize: int, size: int, v: Verdict)
    requires size >= 1 && partSize >= 1 && Verdicts(parts, PartCount(size, partSize), partSize, size, v) && v.Assemble?
    ensures TotalSize(v.parts) == size
  {
    var count := PartCount(size, partSize);
    RoundUpIsCeiling(size, partSize);
    forall i | 0 <= i < count ensures v.parts[i].size == Want(i + 1, count, partSize, size) {
      assert RightSize(parts, i + 1, count, partSize, size);
    }
    PrefixTotal(v.parts[..count - 1], count, partSize, size);
  }

  // ---- resuming ----

  /** The part numbers lo..hi not in `have`, ascending. */
  function MissingFrom(have: set<int>, lo: int, hi: int): seq<int>
    decreases hi - lo
  {
    if lo > hi then [] else (if lo in have then [] else [lo]) + MissingFrom(have, lo + 1, hi)
  }

  lemma {:induction false} MissingGrows(have: set<int>, lo: int, hi: int)
    requires lo <= hi + 1
    ensures MissingFrom(have, lo, hi + 1) == MissingFrom(have, lo, hi) + if hi + 1 in have then [] else [hi + 1]
    decreases hi - lo
  {
    if lo <= hi { MissingGrows(have, lo + 1, hi); }
  }

  lemma {:induction false} MissingExactly(have: set<int>, lo: int, hi: int, n: int)
    ensures n in MissingFrom(have, lo, hi) <==> lo <= n <= hi && n !in have
    decreases hi - lo
  {
    if lo <= hi { MissingExactly(have, lo + 1, hi, n); }
  }

  lemma {:induction false} MissingAscends(have: set<int>, lo: int, hi: int)
    ensures forall i, k | 0 <= i < k < |MissingFrom(have, lo, hi)| :: MissingFrom(have, lo, hi)[i] < MissingFrom(have, lo, hi)[k]
    decreases hi - lo
  {
    if lo <= hi {
      MissingAscends(have, lo + 1, hi);
      var rest := MissingFrom(have, lo + 1, hi);
      forall i | 0 <= i < |rest| ensures lo < rest[i] {
        assert rest[i] in rest;
        MissingExactly(have, lo + 1, hi, rest[i]);
      }
    }
  }

  /** The numbers Status lists for an open upload, and the first of the missing ones, which get a URL. */
  method Resume(held: seq<Part>, count: int) returns (uploaded: seq<int>, missing: seq<int>, urls: seq<int>)
    ensures |uploaded| == |held| && forall i | 0 <= i < |held| :: uploaded[i] == held[i].number
    ensures missing == MissingFrom(set i | 0 <= i < |held| :: held[i].number, 1, count)
    ensures urls == Offered(missing)
  {
    var have: set<int> := {};
    uploaded := [];
    for i := 0 to |held|
      invariant have == set k | 0 <= k < i :: held[k].number
      invariant |uploaded| == i && forall k | 0 <= k < i :: uploaded[k] == held[k].number
    {
      have := have + {held[i].number};
      uploaded := uploaded + [held[i].number];
    }
    missing := [];
    var n := 1;
    while n <= count
      invariant 1 <= n && (count >= 1 ==> n <= count + 1) && (count < 1 ==> n == 1)
      invariant missing == MissingFrom(have, 1, n - 1)
      decreases count - n
    {
      MissingGrows(have, 1, n - 1);
      if n !in have {
        missing := missing + [n];
      }
      n := n + 1;
    }
    urls := missing;
    if |urls| > MAX_URLS {
      urls := urls[..MAX_URLS];
    }
  }

  /** presign hands out at most a hundred URLs at a time. */
  function Offered(missing: seq<int>): (urls: seq<int>)
    ensures |urls| == if |missing| < MAX_URLS then |missing| else MAX_URLS
    ensures urls == missing[..|urls|]
  {
    if |missing| > MAX_URLS then missing[..MAX_URLS] else missing
  }

  function Numbers(s: seq<int>): set<int> {
    set n | n in s
  }

  /** Between lo and hi, `got` is `have` and the parts in `more`. */
  ghost predicate HasToo(have: set<int>, got: set<int>, more: seq<int>, lo: int, hi: int) {
    forall n | lo <= n <= hi :: n in got <==> n in have || n in more
  }

  lemma CutAfterFirst(first: int, rest: seq<int>, k: nat)
    requires 1 <= k <= |rest| + 1
    ensures ([first] + rest)[..k] == [first] + rest[..k - 1]
    ensures ([first] + rest)[k..] == rest[k - 1..]
  {
  }

  /** Supplying the first k missing parts leaves exactly the rest missing. */
  lemma {:induction false} SupplyPrefix(have: set<int>, got: set<int>, lo: int, hi: int, k: nat)
    requires k <= |MissingFrom(have, lo, hi)|
    requires HasToo(have, got, MissingFrom(have, lo, hi)[..k], lo, hi)
    ensures MissingFrom(got, lo, hi) == MissingFrom(have, lo, hi)[k..]
    decreases hi - lo
  {
    if lo <= hi {
      var rest := MissingFrom(have, lo + 1, hi);
      if lo in have {
        assert MissingFrom(have, lo, hi) == rest;
        SupplyPrefix(have, got, lo + 1, hi, k);
      } else if k == 0 {
        SupplyPrefix(have, got, lo + 1, hi, 0);
      } else {
        CutAfterFirst(lo, rest, k);
        SupplyPrefix(have, got, lo + 1, hi, k - 1);
      }
    }
  }

  function Missing(have: set<int>, count: int): seq<int> {
    MissingFrom(have, 1, count)
  }

  /** The parts held after a resume round that uploads every URL it was handed. */
  function NextRound(have: set<int>, count: int): set<int> {
    have + Numbers(Offered(Missing(have, count)))
  }

  /** What a round leaves missing. */
  function Rest(missing: seq<int>): seq<int> {
    missing[|Offered(missing)|..]
  }

  lemma OneRound(have: set<int>, count: int)
    ensures Missing(NextRound(have, count), count) == Rest(Missing(have, count))
  {
    SupplyPrefix(have, NextRound(have, count), 1, count, |Offered(Missing(have, count))|);
  }

  /** `left` is the list without what some rounds remove from its front. */
  ghost predicate LeftAfter(all: seq<int>, rounds: nat, left: seq<int>) {
    left == all[if 100 * rounds < |all| then 100 * rounds else |all|..]
  }

  lemma OneRoundLess(all: seq<int>, rounds: nat, left: seq<int>)
    requires LeftAfter(all, rounds, left)
    ensures LeftAfter(all, rounds + 1, Rest(left))
  {
    var k, j := |all| - |left|, |Offered(left)|;
    assert all[k..][j..] == all[k + j..];
  }

  // ---- resuming until assembly ----

  /** Every part the provider already holds has the size it must have. */
  ghost predicate SoundSoFar(parts: map<int, Part>, count: int, partSize: int, size: int) {
    forall n | 1 <= n <= count && n in parts :: RightSize(parts, n, count, partSize, size)
  }

  /** A resume round: the client uploads each part it was offered, at its right size, and the provider keeps the rest. */
  ghost predicate Round(parts: map<int, Part>, parts': map<int, Part>, count: int, partSize: int, size: int) {
    && parts'.Keys == NextRound(parts.Keys, count)
    && (forall n | n in parts && n !in Offered(Missing(parts.Keys, count)) :: parts'[n] == parts[n])
    && (forall n | n in Offered(Missing(parts.Keys, count)) :: RightSize(parts', n, count, partSize, size))
  }

  /** There is always such a round. */
  function SupplyOffered(parts: map<int, Part>, count: int, partSize: int, size: int): (parts': map<int, Part>)
    ensures Round(parts, parts', count, partSize, size)
  {
    var offered := Offered(Missing(parts.Keys, count));
    map n | n in parts.Keys + Numbers(offered) ::
      if n in offered then Part(n, "", Want(n, count, partSize, size)) else parts[n]
  }

  ghost predicate RoundAt(h: seq<map<int, Part>>, i: nat, count: int, partSize: int, size: int)
    requires i + 1 < |h|
  {
    Round(h[i], h[i + 1], count, partSize, size)
  }

  /** What the provider holds before and after each of some rounds. */
  ghost predicate Rounds(h: seq<map<int, Part>>, count: int, partSize: int, size: int) {
    && h != []
    && (forall i: nat {:trigger RoundAt(h, i, count, partSize, size)} | i + 1 < |h| :: RoundAt(h, i, count, partSize, size))
  }

  lemma OfferedIsMissing(have: set<int>, count: int, n: int)
    requires n in Offered(Missing(have, count))
    ensures 1 <= n <= count && n !in have
  {
    assert n in Missing(have, count);
    MissingExactly(have, 1, count, n);
  }

  /** A round makes and mends no part of a wrong size: what is held already is never offered again. */
  lemma RoundKeepsSound(parts: map<int, Part>, parts': map<int, Part>, count: int, partSize: int, size: int)
    requires Round(parts, parts', count, partSize, size)
    ensures SoundSoFar(parts', count, partSize, size) <==> SoundSoFar(parts, count, partSize, size)
  {
    var offered := Offered(Missing(parts.Keys, count));
    forall n | n in parts ensures n in parts' && parts'[n] == parts[n] {
      if n in offered { OfferedIsMissing(parts.Keys, count, n); }
    }
    if SoundSoFar(parts', count, partSize, size) {
      forall n | 1 <= n <= count && n in parts ensures RightSize(parts, n, count, partSize, size) {
        assert RightSize(parts', n, count, partSize, size);
      }
    }
    if SoundSoFar(parts, count, partSize, size) {
      forall n | 1 <= n <= count && n in parts' ensures RightSize(parts', n, count, partSize, size) {
        assert n in parts ==> RightSize(parts, n, count, partSize, size);
      }
    }
  }

  /** What is missing after i rounds. */
  ghost function LeftAt(h: seq<map<int, Part>>, i: nat, count: int): seq<int>
    requires i < |h|
  {
    Missing(h[i].Keys, count)
  }

  lemma RoundStep(h: seq<map<int, Part>>, i: nat, count: int, partSize: int, size: int)
    requires Rounds(h, count, partSize, size) && i + 1 < |h|
    ensures LeftAt(h, i + 1, count) == Rest(LeftAt(h, i, count))
    ensures SoundSoFar(h[i + 1], count, partSize, size) == SoundSoFar(h[i], count, partSize, size)
  {
    assert RoundAt(h, i, count, partSize, size);
    OneRound(h[i].Keys, count);
    RoundKeepsSound(h[i], h[i + 1], count, partSize, size);
  }

  ghost predicate IsRest(lists: seq<seq<int>>, i: nat)
    requires i + 1 < |lists|
  {
    lists[i + 1] == Rest(lists[i])
  }

  lemma {:induction false} ListsShrink(lists: seq<seq<int>>, k: nat)
    requires k < |lists| && forall i: nat {:trigger IsRest(lists, i)} | i + 1 < |lists| :: IsRest(lists, i)
    ensures LeftAfter(lists[0], k, lists[k])
  {
    if k > 0 {
      ListsShrink(lists, k - 1);
      assert IsRest(lists, k - 1);
      OneRoundLess(lists[0], k - 1, lists[k - 1]);
    }
  }

  /** Each round removes min(100, missing) parts from the front of the list. */
  lemma RoundsRemove(h: seq<map<int, Part>>, k: nat, count: int, partSize: int, size: int)
    requires Rounds(h, count, partSize, size) && k < |h|
    ensures LeftAfter(LeftAt(h, 0, count), k, LeftAt(h, k, count))
  {
    var lists := seq(|h|, i requires 0 <= i < |h| => LeftAt(h, i, count));
    forall i: nat | i + 1 < |lists| ensures IsRest(lists, i) {
      RoundStep(h, i, count, partSize, size);
    }
    ListsShrink(lists, k);
  }

  /** So a client that keeps asking is done after ceil(missing / 100) rounds, and not before. */
  lemma ResumeFinishes(h: seq<map<int, Part>>, k: nat, count: int, partSize: int, size: int)
    requires Rounds(h, count, partSize, size) && k < |h|
    ensures LeftAt(h, k, count) == [] <==> 100 * k >= |LeftAt(h, 0, count)|
  {
    RoundsRemove(h, k, count, partSize, size);
  }

  lemma {:induction false} RoundsKeepSound(h: seq<map<int, Part>>, k: nat, count: int, partSize: int, size: int)
    requires Rounds(h, count, partSize, size) && k < |h|
    ensures SoundSoFar(h[k], count, partSize, size) == SoundSoFar(h[0], count, partSize, size)
  {
    if k > 0 {
      RoundsKeepSound(h, k - 1, count, partSize, size);
      RoundStep(h, k - 1, count, partSize, size);
    }
  }

  lemma WholeMeans(parts: map<int, Part>, count: int, partSize: int, size: int)
    ensures Whole(parts, count, partSize, size) <==>
            Missing(parts.Keys, count) == [] && SoundSoFar(parts, count, partSize, size)
  {
    if Missing(parts.Keys, count) == [] {
      forall n | 1 <= n <= count ensures n in parts { MissingExactly(parts.Keys, 1, count, n); }
    } else {
      var n := Missing(parts.Keys, count)[0];
      assert n in Missing(parts.Keys, count);
      MissingExactly(parts.Keys, 1, count, n);
      assert !RightSize(parts, n, count, partSize, size);
    }
  }

  /**
   The check before assembly passes after k rounds exactly if k rounds of a hundred reach every part that was missing
   and no part held at the start had a wrong size.
   */
  lemma ResumedUploadPasses(h: seq<map<int, Part>>, k: nat, count: int, partSize: int, size: int)
    requires Rounds(h, count, partSize, size) && k < |h|
    ensures Whole(h[k], count, partSize, size) <==>
            100 * k >= |LeftAt(h, 0, count)| && SoundSoFar(h[0], count, partSize, size)
  {
    RoundsKeepSound(h, k, count, partSize, size);
    WholeMeans(h[k], count, partSize, size);
    ResumeFinishes(h, k, count, partSize, size);
  }

  /** A part cut short is never asked for again: nothing is missing, and assembly is refused after any number of rounds. */
  lemma ShortPartIsFinal(h: seq<map<int, Part>>, k: nat)
    requires Rounds(h, 1, MIN_PART_SIZE, 10) && k < |h| && h[0] == ByNumber([Part(1, "e", 9)])
    ensures LeftAt(h, k, 1) == [] && !Whole(h[k], 1, MIN_PART_SIZE, 10)
  {
    var held := [Part(1, "e", 9)];
    assert ByNumber(held[..0]) == map[];
    assert 1 in h[0] && !RightSize(h[0], 1, 1, MIN_PART_SIZE, 10);
    NoneMissing(h[0].Keys);
    ResumeFinishes(h, k, 1, MIN_PART_SIZE, 10);
    ResumedUploadPasses(h, k, 1, MIN_PART_SIZE, 10);
  }

  lemma NoneMissing(have: set<int>)
    requires 1 in have
    ensures Missing(have, 1) == []
  {
    assert MissingFrom(have, 2, 1) == [];
  }

  // ---- the upload row ----

  datatype UploadStatus = InProgress | Completed | Aborted

  datatype UploadError = ErrBadSize | ErrTooLarge | ErrNotOpen | ErrIncomplete | ErrSizeMismatch | ErrSourceTaken

  datatype Reply = Done | Refused(error: UploadError)

  /** What Create checks before it opens an upload. */
  function Admit(size: int): Reply {
    if size <= 0 then Refused(ErrBadSize)
    else if size > MAX_UPLOAD_BYTES then Refused(ErrTooLarge)
    else Done
  }

  class Upload {
    const size: int
    const partSize: int
    const partCount: int
    var status: UploadStatus

    ghost predicate Valid() {
      && Admit(size).Done?
      && 1 <= partSize && partSize <= 0x4000_0000
      && partCount == PartCount(size, partSize) && 1 <= partCount <= MAX_PARTS
    }

    constructor (declared: int)
      requires Admit(declared).Done?
      ensures Valid() && size == declared && status == InProgress
    {
      var part := PartSizeFor(declared);
      RoundUpIsCeiling(declared, part);
      size := declared;
      partSize := part;
      partCount := GoDiv(declared + part - 1, part);
      status := InProgress;
    }

    /** What the provider holds is the authority; an upload that is not open has nothing to offer. */
    method Status(held: seq<Part>) returns (uploaded: seq<int>, missing: seq<int>, urls: seq<int>)
      requires Valid()
      ensures status == InProgress ==>
                && |uploaded| == |held| && (forall i | 0 <= i < |held| :: uploaded[i] == held[i].number)
                && missing == Missing(set i | 0 <= i < |held| :: held[i].number, partCount)
                && urls == Offered(missing)
      ensures status != InProgress ==> uploaded == [] && missing == [] && urls == []
    {
      if status != InProgress {
        return [], [], [];
      }
      uploaded, missing, urls := Resume(held, partCount);
    }

    /**
     `held` is what the provider lists, `assembled` the size of the object it would build, and `hasSource` whether the
     asset version has its one source file already.
     */
    method Complete(held: seq<Part>, assembled: int, hasSource: bool) returns (r: Reply)
      requires Valid()
      modifies this
      ensures Valid()
      ensures r.Done? <==>
              || old(status) == Completed
              || (&& old(status) == InProgress && assembled == size && !hasSource
                  && Whole(ByNumber(held), partCount, partSize, size))
      ensures status == if r.Done? then Completed else old(status)
      ensures r == Refused(ErrNotOpen) <==> old(status) == Aborted
      ensures r == Refused(ErrIncomplete) <==>
              && old(status) == InProgress && Missing(ByNumber(held).Keys, partCount) != []
              && SoundSoFar(ByNumber(held), partCount, partSize, size)
      ensures r == Refused(ErrSizeMismatch) <==>
              && old(status) == InProgress
              && (|| !SoundSoFar(ByNumber(held), partCount, partSize, size)
                  || (assembled != size && Whole(ByNumber(held), partCount, partSize, size)))
      ensures r.Refused? ==> r.error in {ErrNotOpen, ErrIncomplete, ErrSizeMismatch, ErrSourceTaken}
    {
      if status == Completed {
        return Done;
      }
      if status != InProgress {
        return Refused(ErrNotOpen);
      }
      var v := VerifyParts(held, partCount, partSize, size);
      PassesExactlyWhenWhole(ByNumber(held), partCount, partSize, size, v);
      WholeMeans(ByNumber(held), partCount, partSize, size);
      match v {
        case WrongSize(_) => return Refused(ErrSizeMismatch);
        case Incomplete(_) => return Refused(ErrIncomplete);
        case Assemble(_) =>
      }
      if assembled != size {
        return Refused(ErrSizeMismatch);
      }
      if hasSource {
        return Refused(ErrSourceTaken);
      }
      status := Completed;
      return Done;
    }

    method Abort() returns (r: Reply)
      modifies this
      ensures status == (if old(status) == InProgress then Aborted else old(status))
      ensures r == (if old(status) == InProgress then Done else Refused(ErrNotOpen))
    {
      if status != InProgress {
        return Refused(ErrNotOpen);
      }
      status := Aborted;
      return Done;
    }
  }

  /** Create: an admissible size opens an upload, with URLs for its first parts as if resuming from nothing. */
  method Create(size: int) returns (r: Reply, u: Upload?, urls: seq<int>)
    ensures r.Done? <==> 1 <= size <= 5 * 0x100_0000_0000
    ensures r == Refused(ErrBadSize) <==> size <= 0
    ensures r.Refused? ==> u == null && urls == []
    ensures r.Done? ==> u != null && fresh(u) && u.Valid() && u.size == size && u.status == InProgress
                        && urls == Offered(Missing({}, u.partCount))
  {
    r, u, urls := Admit(size), null, [];
    if r.Done? {
      u := new Upload(size);
      urls := AllParts(u.partCount);
      if |urls| > MAX_URLS {
        urls := urls[..MAX_URLS];
      }
    }
  }

  method AllParts(n: int) returns (numbers: seq<int>)
    requires n >= 0
    ensures numbers == Missing({}, n)
  {
    numbers := [];
    for i := 1 to n + 1
      invariant numbers == MissingFrom({}, 1, i - 1)
    {
      MissingGrows({}, 1, i - 1);
      numbers := numbers + [i];
    }
  }
}
