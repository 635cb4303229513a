// Which face of the previous frame is the same face of the current one? The
// code walks hash buckets and keeps the two smallest distances seen; the
// reference is a statement about all pairs.
module GeometryMatch {
  import opened GeometryOps
  import opened GeometryMotion

  const NEAR_LIMIT: int := 8 * 64 * 64

  // A hash of the compared fields; nothing else about it matters.
  type Key = (Material, set<int>) -> nat

  predicate AllNative(ops: seq<Op>) {
    forall i | 0 <= i < |ops| :: ops[i].pos.Native?
  }

  // The 64-bit sums and the factor 3 below do not overflow.
  ghost predicate DistancesFit(a: seq<Op>, b: seq<Op>)
    requires AllNative(a) && AllNative(b)
  {
    forall i, j | 0 <= i < |a| && 0 <= j < |b| :: Distance(a[i], b[j]) * 3 <= INT64_MAX
  }

  // ------------------------------------------------------- the reference

  predicate Candidate(a: Op, list: seq<Op>, k: int)
    requires a.pos.Native? && AllNative(list)
  {
    0 <= k < |list| && Same(a, list[k])
  }

  // list[j] is a's unambiguous nearest counterpart.
  ghost predicate Nearest(a: Op, list: seq<Op>, j: int)
    requires a.pos.Native? && AllNative(list)
  {
    && Candidate(a, list, j)
    && Distance(a, list[j]) <= 32768
    && forall k | Candidate(a, list, k) && k != j ::
         && Distance(a, list[k]) - Distance(a, list[j]) > 8
         && Distance(a, list[j]) * 4 < Distance(a, list[k]) * 3
  }

  ghost predicate Picks(a: Op, list: seq<Op>, r: int)
    requires a.pos.Native? && AllNative(list)
  {
    if r >= 0 then Nearest(a, list, r) else r == -1 && forall j :: !Nearest(a, list, j)
  }

  ghost predicate Matched(prev: seq<Op>, cur: seq<Op>, j: int, i: int)
    requires AllNative(prev) && AllNative(cur)
  {
    && 0 <= j < |prev| && 0 <= i < |cur|
    && Nearest(cur[i], prev, j) && Nearest(prev[j], cur, i)
  }

  lemma PickIsUnique(a: Op, list: seq<Op>, r: int, r': int)
    requires a.pos.Native? && AllNative(list)
    requires Picks(a, list, r) && Picks(a, list, r')
    ensures r == r'
  {
  }

  lemma MatchIsOneToOne(prev: seq<Op>, cur: seq<Op>, j: int, i: int, j': int, i': int)
    requires AllNative(prev) && AllNative(cur)
    requires Matched(prev, cur, j, i) && Matched(prev, cur, j', i')
    ensures i == i' <==> j == j'
  {
  }

  // -------------------------------------------------- the running choice

  datatype Choice = Choice(best: int, first: int, second: int)

  const NO_CHOICE: Choice := Choice(-1, INT64_MAX, INT64_MAX)

  function Consider(c: Choice, index: int, d: int): Choice {
    if d < c.first then Choice(index, d, c.first)
    else if d < c.second then c.(second := d)
    else c
  }

  function ChoiceIndex(c: Choice): int {
    if c.best < 0 || c.first > NEAR_LIMIT || c.second - c.first <= 8 ||
       (c.second != INT64_MAX && c.first * 4 >= c.second * 3)
    then -1 else c.best
  }

  // c holds the two smallest distances from a to its candidates in list[lo..hi].
  ghost predicate Summary(c: Choice, a: Op, list: seq<Op>, lo: int, hi: int)
    requires a.pos.Native? && AllNative(list)
    requires 0 <= lo <= hi <= |list|
  {
    if c.best < 0 then
      c == NO_CHOICE && forall k | lo <= k < hi :: !Candidate(a, list, k)
    else
      && lo <= c.best < hi && Candidate(a, list, c.best)
      && c.first == Distance(a, list[c.best]) <= c.second <= INT64_MAX
      && (forall k | lo <= k < hi && k != c.best && Candidate(a, list, k) :: Distance(a, list[k]) >= c.second)
      && (c.second == INT64_MAX ||
          exists k :: lo <= k < hi && k != c.best && Candidate(a, list, k) && Distance(a, list[k]) == c.second)
  }

  ghost predicate Fits(a: Op, list: seq<Op>)
    requires a.pos.Native? && AllNative(list)
  {
    forall k | 0 <= k < |list| :: Distance(a, list[k]) * 3 <= INT64_MAX
  }

  lemma ConsiderExtends(c: Choice, a: Op, list: seq<Op>, lo: int, hi: int, lo': int, hi': int, k: int)
    requires a.pos.Native? && AllNative(list) && Fits(a, list)
    requires 0 <= lo' <= lo <= hi <= hi' <= |list| && lo' <= k < hi' && !(lo <= k < hi)
    requires forall m | lo' <= m < hi' && !(lo <= m < hi) && m != k :: !Candidate(a, list, m)
    requires Summary(c, a, list, lo, hi)
    ensures Candidate(a, list, k) ==> Summary(Consider(c, k, Distance(a, list[k])), a, list, lo', hi')
    ensures !Candidate(a, list, k) ==> Summary(c, a, list, lo', hi')
  {
    MatchingIsSymmetric(a, list[k]);
    var d := Distance(a, list[k]);
    if Candidate(a, list, k) && c.best >= 0 {
      if d < c.first {
        assert lo' <= c.best < hi' && c.best != k && Candidate(a, list, c.best);
      } else if d < c.second {
        assert lo' <= k < hi' && k != c.best;
      }
    }
  }

  lemma SummaryWidens(c: Choice, a: Op, list: seq<Op>, lo: int, hi: int, lo': int)
    requires a.pos.Native? && AllNative(list)
    requires 0 <= lo' <= lo <= hi <= |list|
    requires forall m | lo' <= m < lo :: !Candidate(a, list, m)
    requires Summary(c, a, list, lo, hi)
    ensures Summary(c, a, list, lo', hi)
  {
  }

  lemma SummaryDecides(c: Choice, a: Op, list: seq<Op>)
    requires a.pos.Native? && AllNative(list) && Fits(a, list)
    requires Summary(c, a, list, 0, |list|)
    ensures Picks(a, list, ChoiceIndex(c))
  {
    if c.best >= 0 {
      var r := ChoiceIndex(c);
      if c.second != INT64_MAX {
        var k :| 0 <= k < |list| && k != c.best && Candidate(a, list, k) && Distance(a, list[k]) == c.second;
        if r < 0 {
          forall j | Candidate(a, list, j)
            ensures !Nearest(a, list, j)
          {
            assert Candidate(a, list, c.best) && Candidate(a, list, k);
          }
        }
      } else {
        forall k | 0 <= k < |list| && k != c.best
          ensures !Candidate(a, list, k)
        {
          MatchingIsSymmetric(a, list[k]);
        }
      }
    }
  }

  // --------------------------------------------- the exhaustive fallback

  method GeometryNearest(a: Op, list: seq<Op>) returns (r: int)
    requires a.pos.Native? && AllNative(list) && Fits(a, list)
    ensures Picks(a, list, r)
  {
    var best, first, second := -1, INT64_MAX, INT64_MAX;
    for i := 0 to |list|
      invariant Summary(Choice(best, first, second), a, list, 0, i)
    {
      ConsiderExtends(Choice(best, first, second), a, list, 0, i, 0, i + 1, i);
      if Same(a, list[i]) {
        var d := Distance(a, list[i]);
        if d < first {
          second := first;
          first := d;
          best := i;
        } else if d < second {
          second := d;
        }
      }
    }
    SummaryDecides(Choice(best, first, second), a, list);
    if first > NEAR_LIMIT || second - first <= 8 || (second != INT64_MAX && first * 4 >= second * 3) {
      return -1;
    }
    return best;
  }

  // ------------------------------------------------------ interpolation

  function Clamp01(alpha: real): (t: real)
    ensures 0.0 <= t <= 1.0
  {
    if alpha < 0.0 then 0.0 else if alpha > 1.0 then 1.0 else alpha
  }

  function Blend(a: int, b: int, t: real): Num { Finite(a as real + (b as real - a as real) * t) }

  // The presented op: the current op at float positions part of the way along.
  function Presented(prev: Op, cur: Op, t: real): Op
    requires prev.pos.Native? && cur.pos.Native?
  {
    var p, q := prev.pos.xy, cur.pos.xy;
    cur.(pos := Position.Presented([
      Blend(p[0], q[0], t), Blend(p[1], q[1], t), Blend(p[2], q[2], t), Blend(p[3], q[3], t),
      Blend(p[4], q[4], t), Blend(p[5], q[5], t), Blend(p[6], q[6], t), Blend(p[7], q[7], t)]))
  }

  ghost predicate Accepted(prev: seq<Op>, cur: seq<Op>, j: int, i: int)
    requires AllNative(prev) && AllNative(cur)
  {
    Matched(prev, cur, j, i) && PairValid(prev[j], cur[i])
  }

  ghost predicate HasAccepted(prev: seq<Op>, cur: seq<Op>, i: int)
    requires AllNative(prev) && AllNative(cur)
  {
    exists j :: Accepted(prev, cur, j, i)
  }

  ghost function AcceptedFaces(prev: seq<Op>, cur: seq<Op>, n: nat): set<int>
    requires AllNative(prev) && AllNative(cur)
  {
    set i | 0 <= i < n && HasAccepted(prev, cur, i)
  }

  // What position i of the output must hold.
  ghost predicate OutputOk(prev: seq<Op>, cur: seq<Op>, t: real, i: int, o: Op)
    requires AllNative(prev) && AllNative(cur) && 0 <= i < |cur|
  {
    && (forall j | Accepted(prev, cur, j, i) :: o == Presented(prev[j], cur[i], t))
    && (!HasAccepted(prev, cur, i) ==> o == cur[i])
  }

  function BucketOf(o: Op, key: Key, buckets: nat): (b: nat)
    requires buckets > 0
    ensures b < buckets
  {
    key(o.material, o.seams) % buckets
  }

  predicate InBucket(o: Op, key: Key, buckets: nat, b: int)
    requires buckets > 0
  {
    Eligible(o) && BucketOf(o, key, buckets) == b
  }

  // The head of bucket b once the first n ops have been pushed.
  function LastInBucket(ops: seq<Op>, key: Key, buckets: nat, b: int, n: nat): (r: int)
    requires buckets > 0 && n <= |ops|
    ensures -1 <= r < n
    ensures r >= 0 ==> InBucket(ops[r], key, buckets, b)
    ensures forall k | r < k < n :: !InBucket(ops[k], key, buckets, b)
  {
    if n == 0 then -1
    else if InBucket(ops[n - 1], key, buckets, b) then n - 1
    else LastInBucket(ops, key, buckets, b, n - 1)
  }

  method ClearHeads(head: array<int>)
    modifies head
    ensures forall b | 0 <= b < head.Length :: head[b] == -1
  {
    for b := 0 to head.Length
      invariant forall b' | 0 <= b' < b :: head[b'] == -1
    {
      head[b] := -1;
    }
  }

  method FillBuckets(prev: seq<Op>, key: Key, head: array<int>, next: array<int>, pc: array<Choice>)
    requires head.Length > 0 && next.Length == pc.Length == |prev|
    requires head != next
    modifies head, next, pc
    ensures BucketsReady(prev, key, head[..], next[..])
    ensures forall j | 0 <= j < |prev| :: pc[j] == NO_CHOICE
  {
    ClearHeads(head);
    hide BucketOf, Eligible, LastInBucket;
    for j := 0 to |prev|
      modifies head, next, pc
      invariant HeadsUpTo(prev, key, head[..], j)
      invariant forall m | 0 <= m < j && Eligible(prev[m]) ::
                  next[m] == LastInBucket(prev, key, head.Length, BucketOf(prev[m], key, head.Length), m)
      invariant forall m | 0 <= m < j :: pc[m] == NO_CHOICE
    {
      pc[j] := NO_CHOICE;
      PushOp(prev, key, head, next, j);
    }
  }

  ghost predicate HeadsUpTo(prev: seq<Op>, key: Key, head: seq<int>, n: nat)
    requires |head| > 0 && n <= |prev|
  {
    forall b | 0 <= b < |head| :: head[b] == LastInBucket(prev, key, |head|, b, n)
  }

  method PushOp(prev: seq<Op>, key: Key, head: array<int>, next: array<int>, j: nat)
    requires head.Length > 0 && j < |prev| == next.Length && head != next && HeadsUpTo(prev, key, head[..], j)
    modifies head, next
    ensures HeadsUpTo(prev, key, head[..], j + 1)
    ensures Eligible(prev[j]) ==>
              next[j] == LastInBucket(prev, key, head.Length, BucketOf(prev[j], key, head.Length), j)
    ensures forall m | 0 <= m < next.Length && m != j :: next[m] == old(next[m])
  {
    hide BucketOf, Eligible;
    if Eligible(prev[j]) {
      var k := BucketOf(prev[j], key, head.Length);
      next[j] := head[k];
      head[k] := j;
    }
  }

  // Ops that can match share a bucket, whatever the hash.
  lemma SameSharesBucket(a: Op, b: Op, key: Key, buckets: nat)
    requires buckets > 0 && a.pos.Native? && b.pos.Native? && Same(a, b)
    ensures InBucket(b, key, buckets, BucketOf(a, key, buckets))
  {
  }

  // The reverse choices while op i of `cur` is being walked down from hi.
  ghost predicate ReverseSummaries(pc: seq<Choice>, prev: seq<Op>, cur: seq<Op>, hi: int, i: int)
    requires AllNative(prev) && AllNative(cur)
    requires |pc| == |prev| && 0 <= i < |cur|
  {
    forall m | 0 <= m < |prev| :: Summary(pc[m], prev[m], cur, 0, if m >= hi then i + 1 else i)
  }

  lemma ReverseStep(pc: seq<Choice>, pc': seq<Choice>, prev: seq<Op>, cur: seq<Op>, j: int, hi: int, i: int)
    requires AllNative(prev) && AllNative(cur) && DistancesFit(prev, cur)
    requires |pc| == |pc'| == |prev| && 0 <= i < |cur| && -1 <= j < hi <= |prev|
    requires ReverseSummaries(pc, prev, cur, hi, i)
    requires forall m | 0 <= m < |prev| && m != j :: pc'[m] == pc[m]
    requires forall m | j < m < hi :: !Same(prev[m], cur[i])
    requires j >= 0 ==>
      pc'[j] == if Same(prev[j], cur[i]) then Consider(pc[j], i, Distance(prev[j], cur[i])) else pc[j]
    ensures ReverseSummaries(pc', prev, cur, if j < 0 then 0 else j, i)
  {
    forall m | 0 <= m < |prev|
      ensures Summary(pc'[m], prev[m], cur, 0, if m >= j then i + 1 else i)
    {
      if j <= m < hi {
        assert Fits(prev[m], cur);
        ConsiderExtends(pc[m], prev[m], cur, 0, i, 0, i + 1, i);
      }
    }
  }

  lemma SkippedCannotMatch(prev: seq<Op>, o: Op, key: Key, buckets: nat, j: int, hi: nat)
    requires AllNative(prev) && o.pos.Native? && buckets > 0 && hi <= |prev|
    requires j == LastInBucket(prev, key, buckets, BucketOf(o, key, buckets), hi)
    ensures forall m | j < m < hi :: !Same(o, prev[m]) && !Same(prev[m], o)
  {
    forall m | j < m < hi
      ensures !Same(o, prev[m]) && !Same(prev[m], o)
    {
      MatchingIsSymmetric(o, prev[m]);
      if Same(o, prev[m]) {
        SameSharesBucket(o, prev[m], key, buckets);
      }
    }
  }

  // One link of the walk: op j of the bucket is the next one below hi.
  lemma WalkStep(prev: seq<Op>, cur: seq<Op>, i: int, key: Key, buckets: nat, j: int, hi: int,
                 c: Choice, pc: seq<Choice>)
    requires AllNative(prev) && AllNative(cur) && DistancesFit(prev, cur) && DistancesFit(cur, prev)
    requires buckets > 0 && |pc| == |prev| && 0 <= i < |cur| && 0 <= j < hi <= |prev|
    requires j == LastInBucket(prev, key, buckets, BucketOf(cur[i], key, buckets), hi)
    requires Summary(c, cur[i], prev, hi, |prev|) && ReverseSummaries(pc, prev, cur, hi, i)
    ensures var d := Distance(cur[i], prev[j]);
            if Same(cur[i], prev[j])
            then Summary(Consider(c, j, d), cur[i], prev, j, |prev|) &&
                 ReverseSummaries(pc[j := Consider(pc[j], i, d)], prev, cur, j, i)
            else Summary(c, cur[i], prev, j, |prev|) && ReverseSummaries(pc, prev, cur, j, i)
  {
    hide Distance, Same, Summary, Consider, LastInBucket, ReverseSummaries;
    var d := Distance(cur[i], prev[j]);
    SkippedCannotMatch(prev, cur[i], key, buckets, j, hi);
    MatchingIsSymmetric(cur[i], prev[j]);
    assert Fits(cur[i], prev);
    ConsiderExtends(c, cur[i], prev, hi, |prev|, j, |prev|, j);
    var pc' := if Same(cur[i], prev[j]) then pc[j := Consider(pc[j], i, d)] else pc;
    ReverseStep(pc, pc', prev, cur, j, hi, i);
  }

  // One current op against its bucket: its own choice is built up, and every
  // previous op met on the way takes it into account.
  method WalkBucket(prev: seq<Op>, cur: seq<Op>, i: int, key: Key, head: array<int>, next: array<int>,
                    pc: array<Choice>) returns (c: Choice)
    requires AllNative(prev) && AllNative(cur) && DistancesFit(prev, cur) && DistancesFit(cur, prev)
    requires head.Length > 0 && next.Length == pc.Length == |prev| && 0 <= i < |cur|
    requires BucketsReady(prev, key, head[..], next[..])
    requires forall m | 0 <= m < |prev| :: Summary(pc[m], prev[m], cur, 0, i)
    modifies pc
    ensures Summary(c, cur[i], prev, 0, |prev|)
    ensures forall m | 0 <= m < |prev| :: Summary(pc[m], prev[m], cur, 0, i + 1)
  {
    hide Summary, ReverseSummaries, Distance, Same, Consider, LastInBucket, DistancesFit;
    c := NO_CHOICE;
    ghost var hi := |prev|;
    WalkStarts(pc[..], prev, cur, i);
    if Eligible(cur[i]) {
      ghost var b := BucketOf(cur[i], key, head.Length);
      var j := head[BucketOf(cur[i], key, head.Length)];
      while j >= 0
        invariant 0 <= hi <= |prev| && j == LastInBucket(prev, key, head.Length, b, hi)
        invariant Summary(c, cur[i], prev, hi, |prev|)
        invariant ReverseSummaries(pc[..], prev, cur, hi, i)
        decreases j
      {
        WalkStep(prev, cur, i, key, head.Length, j, hi, c, pc[..]);
        if Same(cur[i], prev[j]) {
          var d := Distance(cur[i], prev[j]);
          ghost var before := pc[..];
          c := Consider(c, j, d);
          pc[j] := Consider(pc[j], i, d);
          assert pc[..] == before[j := Consider(before[j], i, d)];
        }
        hi := j;
        j := next[j];
      }
      SkippedCannotMatch(prev, cur[i], key, head.Length, -1, hi);
    } else {
      IneligibleCannotMatch(prev, cur[i]);
    }
    WalkEnds(c, pc[..], prev, cur, hi, i);
    assert forall m | 0 <= m < |prev| :: pc[..][m] == pc[m];
  }

  lemma IneligibleCannotMatch(prev: seq<Op>, o: Op)
    requires AllNative(prev) && o.pos.Native? && !Eligible(o)
    ensures forall m | 0 <= m < |prev| :: !Same(o, prev[m]) && !Same(prev[m], o)
  {
  }

  lemma WalkStarts(pc: seq<Choice>, prev: seq<Op>, cur: seq<Op>, i: int)
    requires AllNative(prev) && AllNative(cur)
    requires |pc| == |prev| && 0 <= i < |cur|
    requires forall m | 0 <= m < |prev| :: Summary(pc[m], prev[m], cur, 0, i)
    ensures Summary(NO_CHOICE, cur[i], prev, |prev|, |prev|)
    ensures ReverseSummaries(pc, prev, cur, |prev|, i)
  {
  }

  lemma WalkEnds(c: Choice, pc: seq<Choice>, prev: seq<Op>, cur: seq<Op>, hi: int, i: int)
    requires AllNative(prev) && AllNative(cur) && DistancesFit(prev, cur)
    requires |pc| == |prev| && 0 <= i < |cur| && 0 <= hi <= |prev|
    requires forall m | 0 <= m < hi :: !Same(cur[i], prev[m]) && !Same(prev[m], cur[i])
    requires Summary(c, cur[i], prev, hi, |prev|) && ReverseSummaries(pc, prev, cur, hi, i)
    ensures Summary(c, cur[i], prev, 0, |prev|)
    ensures forall m | 0 <= m < |prev| :: Summary(pc[m], prev[m], cur, 0, i + 1)
  {
    SummaryWidens(c, cur[i], prev, hi, |prev|, 0);
    if hi > 0 {
      ReverseStep(pc, pc, prev, cur, -1, hi, i);
    }
    ReverseDone(pc, prev, cur, i);
  }

  lemma ReverseDone(pc: seq<Choice>, prev: seq<Op>, cur: seq<Op>, i: int)
    requires AllNative(prev) && AllNative(cur)
    requires |pc| == |prev| && 0 <= i < |cur|
    requires ReverseSummaries(pc, prev, cur, 0, i)
    ensures forall m | 0 <= m < |prev| :: Summary(pc[m], prev[m], cur, 0, i + 1)
  {
  }

  ghost predicate BucketsReady(prev: seq<Op>, key: Key, head: seq<int>, next: seq<int>)
    requires |head| > 0 && |next| == |prev|
  {
    && (forall b | 0 <= b < |head| :: head[b] == LastInBucket(prev, key, |head|, b, |prev|))
    && (forall j | 0 <= j < |prev| && Eligible(prev[j]) ::
          next[j] == LastInBucket(prev, key, |head|, BucketOf(prev[j], key, |head|), j))
  }

  lemma NothingConsidered(prev: seq<Op>, cur: seq<Op>)
    requires AllNative(prev) && AllNative(cur)
    ensures forall m | 0 <= m < |prev| :: Summary(NO_CHOICE, prev[m], cur, 0, 0)
  {
  }

  method MatchBuckets(prev: seq<Op>, cur: seq<Op>, key: Key, head: array<int>, next: array<int>,
                      pc: array<Choice>, cc: array<Choice>)
    requires AllNative(prev) && AllNative(cur) && DistancesFit(prev, cur) && DistancesFit(cur, prev)
    requires head.Length > 0 && next.Length == pc.Length == |prev| && cc.Length == |cur|
    requires pc != cc
    requires BucketsReady(prev, key, head[..], next[..])
    requires forall j | 0 <= j < |prev| :: pc[j] == NO_CHOICE
    modifies pc, cc
    ensures forall i | 0 <= i < |cur| :: Summary(cc[i], cur[i], prev, 0, |prev|)
    ensures forall j | 0 <= j < |prev| :: Summary(pc[j], prev[j], cur, 0, |cur|)
  {
    NothingConsidered(prev, cur);
    hide Summary, BucketsReady, DistancesFit;
    for i := 0 to |cur|
      invariant BucketsReady(prev, key, head[..], next[..])
      invariant forall m | 0 <= m < i :: Summary(cc[m], cur[m], prev, 0, |prev|)
      invariant forall m | 0 <= m < |prev| :: Summary(pc[m], prev[m], cur, 0, i)
    {
      cc[i] := WalkBucket(prev, cur, i, key, head, next, pc);
    }
  }

  // `haveScratch` says whether the four scratch blocks could be had; without
  // them both directions fall back to the exhaustive search.
  method Interpolate(prev: seq<Op>, cur: seq<Op>, alpha: real, key: Key, haveScratch: bool, out: array<Op>)
    returns (matched: nat)
    requires AllNative(prev) && AllNative(cur) && DistancesFit(prev, cur) && DistancesFit(cur, prev)
    requires out.Length == |cur|
    modifies out
    ensures forall i | 0 <= i < |cur| :: OutputOk(prev, cur, Clamp01(alpha), i, out[i])
    ensures matched == |AcceptedFaces(prev, cur, |cur|)|
  {
    hide Summary, ChoicesReady, AcceptedFaces, HasAccepted, Accepted, Presented, OutputOk, BucketsReady;
    hide DistancesFit, Distance, Same, Eligible;
    matched := 0;
    NothingAcceptedYet(prev, cur);
    for i := 0 to |cur|
      invariant forall k | 0 <= k < i :: out[k] == cur[k]
    {
      out[i] := cur[i];
    }
    if |prev| == 0 || |cur| == 0 {
      NothingToMatch(prev, cur, Clamp01(alpha));
      return;
    }
    var t := if alpha < 0.0 then 0.0 else alpha;
    t := if t > 1.0 then 1.0 else t;
    var buckets := 1;
    while buckets < |prev| && buckets < 16384
      invariant buckets > 0
    {
      buckets := 2 * buckets;
    }
    var head, next := new int[buckets], new int[|prev|];
    var pc, cc := new Choice[|prev|], new Choice[|cur|];
    if haveScratch {
      FillBuckets(prev, key, head, next, pc);
      MatchBuckets(prev, cur, key, head, next, pc, cc);
      AllChoicesReady(prev, cur, pc, cc);
    }
    for i := 0 to |cur|
      invariant haveScratch ==> ChoicesReady(prev, cur, pc[..], cc[..])
      invariant forall k | 0 <= k < i :: OutputOk(prev, cur, t, k, out[k])
      invariant forall k | i <= k < |cur| :: out[k] == cur[k]
      invariant matched == |AcceptedFaces(prev, cur, i)|
    {
      NextAccepted(prev, cur, i);
      var j := AcceptedIndex(prev, cur, i, haveScratch, pc, cc);
      if j < 0 {
        OutputKept(prev, cur, t, i);
        continue;
      }
      matched := matched + 1;
      out[i] := Presented(prev[j], cur[i], t);
      OutputBlended(prev, cur, t, i, j);
    }
  }

  lemma NothingAcceptedYet(prev: seq<Op>, cur: seq<Op>)
    requires AllNative(prev) && AllNative(cur)
    ensures |AcceptedFaces(prev, cur, 0)| == 0
  {
    assert AcceptedFaces(prev, cur, 0) == {};
  }

  lemma NothingToMatch(prev: seq<Op>, cur: seq<Op>, t: real)
    requires AllNative(prev) && AllNative(cur) && (|prev| == 0 || |cur| == 0)
    ensures |AcceptedFaces(prev, cur, |cur|)| == 0
    ensures forall i | 0 <= i < |cur| :: OutputOk(prev, cur, t, i, cur[i])
  {
    assert AcceptedFaces(prev, cur, |cur|) == {};
  }

  lemma AllChoicesReady(prev: seq<Op>, cur: seq<Op>, pc: array<Choice>, cc: array<Choice>)
    requires AllNative(prev) && AllNative(cur) && pc.Length == |prev| && cc.Length == |cur|
    requires forall k | 0 <= k < |cur| :: Summary(cc[k], cur[k], prev, 0, |prev|)
    requires forall j | 0 <= j < |prev| :: Summary(pc[j], prev[j], cur, 0, |cur|)
    ensures ChoicesReady(prev, cur, pc[..], cc[..])
  {
  }

  ghost predicate ChoicesReady(prev: seq<Op>, cur: seq<Op>, pc: seq<Choice>, cc: seq<Choice>)
    requires AllNative(prev) && AllNative(cur)
    requires |pc| == |prev| && |cc| == |cur|
  {
    && (forall k | 0 <= k < |cur| :: Summary(cc[k], cur[k], prev, 0, |prev|))
    && (forall j | 0 <= j < |prev| :: Summary(pc[j], prev[j], cur, 0, |cur|))
  }

  // The three tests an output face has to pass; -1 when it does not.
  method AcceptedIndex(prev: seq<Op>, cur: seq<Op>, i: int, haveScratch: bool,
                       pc: array<Choice>, cc: array<Choice>) returns (r: int)
    requires AllNative(prev) && AllNative(cur) && DistancesFit(prev, cur) && DistancesFit(cur, prev)
    requires 0 <= i < |cur| && pc.Length == |prev| && cc.Length == |cur|
    requires haveScratch ==> ChoicesReady(prev, cur, pc[..], cc[..])
    ensures r >= 0 <==> HasAccepted(prev, cur, i)
    ensures r >= 0 ==> r < |prev| && Accepted(prev, cur, r, i)
  {
    var j := ChoiceOrNearest(cur[i], prev, haveScratch, cc[i]);
    if j < 0 {
      return -1;
    }
    var reverse := ChoiceOrNearest(prev[j], cur, haveScratch, pc[j]);
    OnlyOnePick(prev, cur, i, j, reverse);
    if reverse != i {
      return -1;
    }
    if !PairValid(prev[j], cur[i]) {
      return -1;
    }
    return j;
  }

  lemma OnlyOnePick(prev: seq<Op>, cur: seq<Op>, i: int, j: int, reverse: int)
    requires AllNative(prev) && AllNative(cur) && 0 <= i < |cur| && 0 <= j < |prev|
    requires Picks(cur[i], prev, j) && Picks(prev[j], cur, reverse)
    ensures HasAccepted(prev, cur, i) <==> reverse == i && PairValid(prev[j], cur[i])
    ensures reverse == i && PairValid(prev[j], cur[i]) ==> Accepted(prev, cur, j, i)
  {
    hide PairValid, Distance, Same;
    if reverse == i && PairValid(prev[j], cur[i]) {
      assert Accepted(prev, cur, j, i);
    }
    if HasAccepted(prev, cur, i) {
      var j' :| Accepted(prev, cur, j', i);
      PickIsUnique(cur[i], prev, j, j');
      PickIsUnique(prev[j], cur, reverse, i);
    }
  }

  lemma OutputKept(prev: seq<Op>, cur: seq<Op>, t: real, i: int)
    requires AllNative(prev) && AllNative(cur) && 0 <= i < |cur|
    requires !HasAccepted(prev, cur, i)
    ensures OutputOk(prev, cur, t, i, cur[i])
  {
    assert forall j :: !Accepted(prev, cur, j, i);
  }

  lemma OutputBlended(prev: seq<Op>, cur: seq<Op>, t: real, i: int, j: int)
    requires AllNative(prev) && AllNative(cur) && 0 <= i < |cur|
    requires Accepted(prev, cur, j, i)
    ensures OutputOk(prev, cur, t, i, Presented(prev[j], cur[i], t))
  {
    hide PairValid, Distance, Same;
    forall j' | Accepted(prev, cur, j', i)
      ensures j' == j
    {
      PickIsUnique(cur[i], prev, j, j');
    }
  }

  // The index expression used in both directions.
  method ChoiceOrNearest(a: Op, list: seq<Op>, haveScratch: bool, c: Choice) returns (r: int)
    requires a.pos.Native? && AllNative(list) && Fits(a, list)
    requires haveScratch ==> Summary(c, a, list, 0, |list|)
    ensures Picks(a, list, r) && r < |list|
  {
    if haveScratch {
      SummaryDecides(c, a, list);
      r := ChoiceIndex(c);
    } else {
      r := GeometryNearest(a, list);
    }
  }

  lemma NextAccepted(prev: seq<Op>, cur: seq<Op>, i: int)
    requires AllNative(prev) && AllNative(cur) && 0 <= i < |cur|
    ensures |AcceptedFaces(prev, cur, i + 1)| ==
            |AcceptedFaces(prev, cur, i)| + (if HasAccepted(prev, cur, i) then 1 else 0)
  {
    hide HasAccepted;
    var s, s' := AcceptedFaces(prev, cur, i), AcceptedFaces(prev, cur, i + 1);
    assert s' == if HasAccepted(prev, cur, i) then s + {i} else s;
  }

  // ------------------------------------------- what is finally presented

  // A blended face is drawn at a safe instant of its motion, turned the same
  // way as the face the game has just submitted.
  lemma BlendedFaceIsSafe(prev: seq<Op>, cur: seq<Op>, alpha: real, j: int, i: int, o: Op)
    requires AllNative(prev) && AllNative(cur) && 0 <= i < |cur|
    requires Accepted(prev, cur, j, i) && OutputOk(prev, cur, Clamp01(alpha), i, o)
    ensures AllFinite(o) && AllFinite(prev[j]) && AllFinite(cur[i])
    ensures var p, q := Points(prev[j]), Points(cur[i]);
            && o == cur[i].(pos := o.pos)
            && (0.0 <= alpha <= 1.0 ==> Points(o) == At(p, q, alpha))
            && (alpha <= 0.0 ==> Points(o) == p) && (alpha >= 1.0 ==> Points(o) == q)
            && (forall a, b | 0 <= a < 4 && 0 <= b < 4 && q[a] == q[b] :: Points(o)[a] == Points(o)[b])
            && exists sign ::
                 && (sign == 1.0 || sign == -1.0)
                 && ShapeSafe(Points(o), Corners(p), sign)
                 && ShapeSafe(q, Corners(p), sign)
  {
    var p, q, t := Points(prev[j]), Points(cur[i]), Clamp01(alpha);
    assert o == Presented(prev[j], cur[i], t);
    PresentedIsAt(prev[j], cur[i], t);
    QuadsValidDecidesMotion(p, q);
    MotionEnds(p, q);
    CoincidencesHold(p, q, t);
    hide At, Corners, Points, ShapeSafe, QuadsValid;
    var sign := if AlwaysSafe(p, q, Corners(p), 1.0) then 1.0 else -1.0;
    assert AlwaysSafe(p, q, Corners(p), sign);
    assert ShapeSafe(At(p, q, t), Corners(p), sign) && ShapeSafe(At(p, q, 1.0), Corners(p), sign);
  }

  lemma PresentedIsAt(prev: Op, cur: Op, t: real)
    requires prev.pos.Native? && cur.pos.Native?
    ensures AllFinite(Presented(prev, cur, t))
    ensures Points(Presented(prev, cur, t)) == At(Points(prev), Points(cur), t)
  {
    hide Blend, Mix;
    var p, q := prev.pos.xy, cur.pos.xy;
    BlendIsMix(p, q, t, 0);
    BlendIsMix(p, q, t, 1);
    BlendIsMix(p, q, t, 2);
    BlendIsMix(p, q, t, 3);
  }

  lemma BlendIsMix(p: NativeXY, q: NativeXY, t: real, k: nat)
    requires k < 4
    ensures var x, y := Blend(p[2 * k], q[2 * k], t), Blend(p[2 * k + 1], q[2 * k + 1], t);
            x.Finite? && y.Finite? &&
            Point(x.value, y.value) ==
            Mix(Point(p[2 * k] as real, p[2 * k + 1] as real), Point(q[2 * k] as real, q[2 * k + 1] as real), t)
  {
  }

  lemma MotionEnds(p: Quad, q: Quad)
    ensures At(p, q, 0.0) == p && At(p, q, 1.0) == q
  {
  }
}
