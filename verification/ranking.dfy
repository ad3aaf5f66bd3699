/**
 * The post-processing step of ImageClassifier (`getSortedResultByte`,
 * `getSortedResultFloat`): every class whose confidence is above THRESHOLD
 * becomes a DetectedObject in a priority queue, and at most MAX_RESULTS of
 * them are polled off the queue into the result list.
 *
 * Both variants are one ranker parameterised by the comparator's direction:
 * the byte variant's comparator is descending, the float variant's is
 * ascending, so the float variant returns the smallest qualifying confidences,
 * smallest first.
 */
module Ranking {
  import opened Wrappers
  import opened JavaText
  import opened Detection

  const MAX_RESULTS: nat := 3

  /** `0.1f`: the single-precision value nearest to 0.1, which is exactly 13421773 / 2^27. */
  const THRESHOLD: real := 13421773.0 / 134217728.0

  /** `THRESHOLD` is 0.1 up to float rounding. */
  lemma ThresholdIsOneTenth()
    ensures 0.1 < THRESHOLD < 0.1000001
  {
  }

  /** Which way the queue's comparator orders confidences. */
  datatype Direction = Descending | Ascending

  function Min(a: nat, b: nat): nat {
    if a <= b then a else b
  }

  /**
   * The queue's comparator: `a` may be polled before `b`. The comparator
   * unboxes both confidences, so both must be present.
   */
  predicate Precedes(dir: Direction, a: DetectedObject, b: DetectedObject) {
    && a.confidence.Some?
    && b.confidence.Some?
    && match dir
       case Descending => a.confidence.value >= b.confidence.value
       case Ascending => a.confidence.value <= b.confidence.value
  }

  /**
   * Both comparators order scored objects totally: every object comes before
   * itself, the order is transitive, and of two objects one comes first.
   * The two directions are each other's mirror image.
   */
  lemma ComparatorIsTotalPreorder(dir: Direction, a: DetectedObject, b: DetectedObject, c: DetectedObject)
    requires a.confidence.Some? && b.confidence.Some? && c.confidence.Some?
    ensures Precedes(dir, a, a)
    ensures Precedes(dir, a, b) || Precedes(dir, b, a)
    ensures Precedes(dir, a, b) && Precedes(dir, b, c) ==> Precedes(dir, a, c)
    ensures Precedes(Descending, a, b) <==> Precedes(Ascending, b, a)
  {
  }

  /** Every object in `q` has a confidence. */
  predicate AllScored(q: seq<DetectedObject>) {
    forall x :: 0 <= x < |q| ==> q[x].confidence.Some?
  }

  /** `q[j]` is a head of the queue: it may be polled before every element. */
  predicate IsLeast(dir: Direction, q: seq<DetectedObject>, j: int) {
    0 <= j < |q| && forall x :: 0 <= x < |q| ==> Precedes(dir, q[j], q[x])
  }

  /** `(b & 0xff) / 255.0f`: the confidence of a quantized score, which gives back the unsigned byte when scaled by 255. */
  function ByteConfidence(b: bv8): (c: real)
    ensures 0.0 <= c <= 1.0
    ensures c * 255.0 == (b as int) as real
  {
    (b as int) as real / 255.0
  }

  /** The confidences of a whole quantized score vector. */
  function ByteConfidences(scores: seq<bv8>): seq<real> {
    seq(|scores|, i requires 0 <= i < |scores| => ByteConfidence(scores[i]))
  }

  /**
   * The object built for class `i`: id `"" + i`, the label as title, and the
   * decoded confidence.
   */
  function Entry(i: nat, labels: seq<string>, quant: bool, confs: seq<real>): (e: DetectedObject)
    requires i < |labels| && i < |confs|
    ensures e.GetId() == NatToString(i) && DecimalValue(e.GetId()) == i
    ensures e.GetTitle() == Some(labels[i]) && e.GetConfidence() == Some(confs[i])
  {
    DecimalRoundTrip(i);
    DetectedObject(NatToString(i), Some(labels[i]), quant, Some(confs[i]))
  }

  /** The indices below `n` whose confidence is strictly above THRESHOLD, in increasing order. */
  function Qualifying(confs: seq<real>, n: nat): seq<nat>
    requires n <= |confs|
  {
    if n == 0 then []
    else Qualifying(confs, n - 1) + (if confs[n - 1] > THRESHOLD then [n - 1] else [])
  }

  /** The objects the first loop adds to the queue, in the order it adds them. */
  function Candidates(confs: seq<real>, labels: seq<string>, quant: bool, n: nat): (c: seq<DetectedObject>)
    requires n <= |labels| <= |confs|
    ensures |c| <= n
    ensures forall k :: 0 <= k < |c| ==> c[k].confidence.Some? && c[k].confidence.value > THRESHOLD
  {
    if n == 0 then []
    else Candidates(confs, labels, quant, n - 1)
         + (if confs[n - 1] > THRESHOLD then [Entry(n - 1, labels, quant, confs)] else [])
  }

  /**
   * What the ranker promises about its result `r`: it has
   * `min(#candidates, MAX_RESULTS)` entries, all drawn from the candidates
   * without repetition, in the comparator's order, and every candidate left
   * out comes after every entry returned.
   */
  ghost predicate IsRanking(confs: seq<real>, labels: seq<string>, quant: bool, dir: Direction, r: seq<DetectedObject>)
    requires |labels| <= |confs|
  {
    var c := Candidates(confs, labels, quant, |labels|);
    && |r| == Min(|c|, MAX_RESULTS)
    && multiset(r) <= multiset(c)
    && (forall a, b :: 0 <= a < b < |r| ==> Precedes(dir, r[a], r[b]))
    && (forall a, o :: 0 <= a < |r| && o in multiset(c) - multiset(r) ==> Precedes(dir, r[a], o))
  }

  /** Every non-empty queue has a head: the comparator is a total preorder on scored objects. */
  lemma {:induction false} LeastExists(dir: Direction, q: seq<DetectedObject>)
    requires q != [] && AllScored(q)
    ensures exists j :: IsLeast(dir, q, j)
  {
    if |q| == 1 {
      assert IsLeast(dir, q, 0);
    } else {
      var init := q[..|q| - 1];
      var last := |q| - 1;
      LeastExists(dir, init);
      var j :| IsLeast(dir, init, j);
      assert forall x :: 0 <= x < last ==> q[x] == init[x];
      if Precedes(dir, q[j], q[last]) {
        assert IsLeast(dir, q, j);
      } else {
        assert IsLeast(dir, q, last);
      }
    }
  }

  /**
   * `PriorityQueue.poll`: removes and returns a head of the queue. Which head
   * is chosen among equal confidences is left open, as the heap leaves it.
   */
  method Poll(dir: Direction, queue: seq<DetectedObject>) returns (head: DetectedObject, rest: seq<DetectedObject>)
    requires queue != [] && AllScored(queue)
    ensures head in queue && head.confidence.Some?
    ensures multiset(queue) == multiset(rest) + multiset{head}
    ensures forall x :: 0 <= x < |rest| ==> Precedes(dir, head, rest[x])
  {
    LeastExists(dir, queue);
    var j :| IsLeast(dir, queue, j);
    head := queue[j];
    rest := queue[..j] + queue[j + 1..];
    RemoveAt(queue, j, rest);
  }

  /** Removing position `j` leaves the other elements in their order. */
  lemma RemoveAt(queue: seq<DetectedObject>, j: nat, rest: seq<DetectedObject>)
    requires j < |queue| && rest == queue[..j] + queue[j + 1..]
    ensures multiset(queue) == multiset(rest) + multiset{queue[j]}
    ensures forall x :: 0 <= x < j ==> rest[x] == queue[x]
    ensures forall x :: j <= x < |rest| ==> rest[x] == queue[x + 1]
  {
    assert queue == queue[..j] + [queue[j]] + queue[j + 1..];
  }

  /**
   * The shared body of `getSortedResultByte` and `getSortedResultFloat`:
   * queue every class above THRESHOLD, then poll `min(size, MAX_RESULTS)`
   * objects into the result.
   */
  method Rank(confs: seq<real>, labels: seq<string>, quant: bool, dir: Direction) returns (recognitions: seq<DetectedObject>)
    requires |labels| <= |confs|
    ensures IsRanking(confs, labels, quant, dir, recognitions)
  {
    var pq: seq<DetectedObject> := [];
    for i := 0 to |labels|
      invariant pq == Candidates(confs, labels, quant, i)
    {
      var confidence := confs[i];
      if confidence > THRESHOLD {
        pq := pq + [DetectedObject(NatToString(i), Some(if |labels| > i then labels[i] else "unknown"), quant, Some(confidence))];
      }
    }
    ghost var all := pq;
    recognitions := [];
    var recognitionsSize := Min(|pq|, MAX_RESULTS);
    for k := 0 to recognitionsSize
      invariant |recognitions| == k && |pq| == |all| - k
      invariant PartlyPolled(dir, all, recognitions, pq)
    {
      var head, rest := Poll(dir, pq);
      PollStep(dir, all, recognitions, pq, head, rest);
      recognitions := recognitions + [head];
      pq := rest;
    }
    PolledIsRanking(confs, labels, quant, dir, recognitions, pq);
  }

  /** The polling loop's invariant: `done` was polled from `all`, `pq` is what is left. */
  ghost predicate PartlyPolled(dir: Direction, all: seq<DetectedObject>, done: seq<DetectedObject>, pq: seq<DetectedObject>) {
    && multiset(done) + multiset(pq) == multiset(all)
    && AllScored(pq)
    && (forall a, b :: 0 <= a < b < |done| ==> Precedes(dir, done[a], done[b]))
    && (forall a, x :: 0 <= a < |done| && 0 <= x < |pq| ==> Precedes(dir, done[a], pq[x]))
  }

  /** Polling one more head keeps the polled prefix in order and ahead of what is left. */
  lemma PollStep(dir: Direction, all: seq<DetectedObject>, done: seq<DetectedObject>, pq: seq<DetectedObject>,
                 head: DetectedObject, rest: seq<DetectedObject>)
    requires PartlyPolled(dir, all, done, pq)
    requires head in pq && head.confidence.Some?
    requires multiset(pq) == multiset(rest) + multiset{head}
    requires forall x :: 0 <= x < |rest| ==> Precedes(dir, head, rest[x])
    ensures PartlyPolled(dir, all, done + [head], rest)
  {
    var done' := done + [head];
    forall a | 0 <= a < |done|
      ensures Precedes(dir, done[a], head)
      ensures forall x :: 0 <= x < |rest| ==> Precedes(dir, done[a], rest[x])
    {
      var y :| 0 <= y < |pq| && pq[y] == head;
      forall x | 0 <= x < |rest| ensures Precedes(dir, done[a], rest[x]) {
        assert rest[x] in multiset(pq);
        var z :| 0 <= z < |pq| && pq[z] == rest[x];
      }
    }
    forall x | 0 <= x < |rest| ensures rest[x].confidence.Some? {
      assert rest[x] in multiset(pq);
    }
    assert forall a, b :: 0 <= a < b < |done'| ==> Precedes(dir, done'[a], done'[b]);
  }

  /** When the polling loop ends, the polled objects form a ranking of the candidates. */
  lemma PolledIsRanking(confs: seq<real>, labels: seq<string>, quant: bool, dir: Direction,
                        done: seq<DetectedObject>, pq: seq<DetectedObject>)
    requires |labels| <= |confs|
    requires PartlyPolled(dir, Candidates(confs, labels, quant, |labels|), done, pq)
    requires |done| == Min(|Candidates(confs, labels, quant, |labels|)|, MAX_RESULTS)
    ensures IsRanking(confs, labels, quant, dir, done)
  {
    var all := Candidates(confs, labels, quant, |labels|);
    forall a, o | 0 <= a < |done| && o in multiset(all) - multiset(done)
      ensures Precedes(dir, done[a], o)
    {
      assert o in multiset(pq);
      var z :| 0 <= z < |pq| && pq[z] == o;
    }
  }

  /** `getSortedResultByte`: ranks a quantized score vector, highest confidence first. */
  method GetSortedResultByte(labels: seq<string>, quant: bool, labelProbArray: seq<bv8>) returns (recognitions: seq<DetectedObject>)
    requires |labels| <= |labelProbArray|
    ensures IsRanking(ByteConfidences(labelProbArray), labels, quant, Descending, recognitions)
  {
    recognitions := Rank(ByteConfidences(labelProbArray), labels, quant, Descending);
  }

  /** `getSortedResultFloat`: ranks a float score vector with the ascending comparator, lowest confidence first. */
  method GetSortedResultFloat(labels: seq<string>, quant: bool, labelProbArray: seq<real>) returns (recognitions: seq<DetectedObject>)
    requires |labels| <= |labelProbArray|
    ensures IsRanking(labelProbArray, labels, quant, Ascending, recognitions)
  {
    recognitions := Rank(labelProbArray, labels, quant, Ascending);
  }

  // ---------------------------------------------------------------------------
  // What the candidates are

  /** `Qualifying` lists exactly the indices below `n` above THRESHOLD, in strictly increasing order. */
  lemma {:induction false} QualifyingSpec(confs: seq<real>, n: nat)
    requires n <= |confs|
    ensures var q := Qualifying(confs, n);
            && (forall k :: 0 <= k < |q| ==> q[k] < n && confs[q[k]] > THRESHOLD)
            && (forall a, b :: 0 <= a < b < |q| ==> q[a] < q[b])
            && (forall i :: 0 <= i < n && confs[i] > THRESHOLD ==> i in q)
  {
    if n > 0 {
      QualifyingSpec(confs, n - 1);
    }
  }

  /** The queued objects are the entries of the qualifying indices, in index order. */
  lemma {:induction false} CandidatesAreEntries(confs: seq<real>, labels: seq<string>, quant: bool, n: nat)
    requires n <= |labels| <= |confs|
    ensures |Candidates(confs, labels, quant, n)| == |Qualifying(confs, n)|
    ensures forall k :: 0 <= k < |Qualifying(confs, n)| ==>
              Qualifying(confs, n)[k] < n
              && Candidates(confs, labels, quant, n)[k] == Entry(Qualifying(confs, n)[k], labels, quant, confs)
  {
    QualifyingSpec(confs, n);
    if n > 0 {
      CandidatesAreEntries(confs, labels, quant, n - 1);
    }
  }

  /** No object is queued twice: the queued objects have pairwise distinct ids. */
  lemma CandidatesDistinct(confs: seq<real>, labels: seq<string>, quant: bool)
    requires |labels| <= |confs|
    ensures forall a, b :: 0 <= a < b < |Candidates(confs, labels, quant, |labels|)| ==>
              Candidates(confs, labels, quant, |labels|)[a].id != Candidates(confs, labels, quant, |labels|)[b].id
  {
    var n := |labels|;
    var c := Candidates(confs, labels, quant, n);
    var q := Qualifying(confs, n);
    CandidatesAreEntries(confs, labels, quant, n);
    QualifyingSpec(confs, n);
    forall a, b | 0 <= a < b < |c| ensures c[a].id != c[b].id {
      NatToStringInjective(q[a], q[b]);
    }
  }

  /** A sequence without repeated elements holds each value at most once. */
  lemma {:induction false} DistinctOccursOnce<T>(s: seq<T>, x: T)
    requires forall a, b :: 0 <= a < b < |s| ==> s[a] != s[b]
    ensures multiset(s)[x] <= 1
  {
    if s != [] {
      var init := s[..|s| - 1];
      assert s == init + [s[|s| - 1]];
      DistinctOccursOnce(init, x);
      if x == s[|s| - 1] {
        forall a | 0 <= a < |init| ensures init[a] != x {
          assert init[a] == s[a];
        }
        assert x !in init;
      }
    }
  }

  /** A value at two positions occurs at least twice. */
  lemma RepeatOccursTwice<T>(s: seq<T>, a: nat, b: nat)
    requires a < b < |s| && s[a] == s[b]
    ensures multiset(s)[s[a]] >= 2
  {
    assert s == s[..b] + [s[b]] + s[b + 1..];
    assert s[a] in s[..b];
  }

  // ---------------------------------------------------------------------------
  // What a ranking contains

  /** A ranking has `min(#qualifying, MAX_RESULTS)` entries, so never more than MAX_RESULTS. */
  lemma RankingSize(confs: seq<real>, labels: seq<string>, quant: bool, dir: Direction, r: seq<DetectedObject>)
    requires |labels| <= |confs| && IsRanking(confs, labels, quant, dir, r)
    ensures |r| == Min(|Qualifying(confs, |labels|)|, MAX_RESULTS) <= MAX_RESULTS
  {
    CandidatesAreEntries(confs, labels, quant, |labels|);
  }

  /**
   * Every entry of a ranking is the entry of some class above THRESHOLD: id
   * `"" + i`, title `labels[i]` (never "unknown"), confidence `confs[i]`.
   */
  lemma RankedEntriesQualify(confs: seq<real>, labels: seq<string>, quant: bool, dir: Direction, r: seq<DetectedObject>)
    requires |labels| <= |confs| && IsRanking(confs, labels, quant, dir, r)
    ensures forall k :: 0 <= k < |r| ==>
              exists i :: 0 <= i < |labels| && confs[i] > THRESHOLD && r[k] == Entry(i, labels, quant, confs)
  {
    var c := Candidates(confs, labels, quant, |labels|);
    var q := Qualifying(confs, |labels|);
    CandidatesAreEntries(confs, labels, quant, |labels|);
    QualifyingSpec(confs, |labels|);
    forall k | 0 <= k < |r|
      ensures exists i :: 0 <= i < |labels| && confs[i] > THRESHOLD && r[k] == Entry(i, labels, quant, confs)
    {
      assert r[k] in multiset(r);
      assert r[k] in multiset(c);
      var m :| 0 <= m < |c| && c[m] == r[k];
      assert r[k] == Entry(q[m], labels, quant, confs);
    }
  }

  /** No class appears twice in a ranking: the ids of its entries are pairwise distinct. */
  lemma RankedIdsDistinct(confs: seq<real>, labels: seq<string>, quant: bool, dir: Direction, r: seq<DetectedObject>)
    requires |labels| <= |confs| && IsRanking(confs, labels, quant, dir, r)
    ensures forall a, b :: 0 <= a < b < |r| ==> r[a].id != r[b].id
  {
    var c := Candidates(confs, labels, quant, |labels|);
    RankedEntriesQualify(confs, labels, quant, dir, r);
    CandidatesDistinct(confs, labels, quant);
    assert forall a, b :: 0 <= a < b < |c| ==> c[a] != c[b] by {
      forall a, b | 0 <= a < b < |c| ensures c[a] != c[b] {
        assert c[a].id != c[b].id;
      }
    }
    forall a, b | 0 <= a < b < |r| ensures r[a].id != r[b].id {
      if r[a].id == r[b].id {
        var i :| 0 <= i < |labels| && confs[i] > THRESHOLD && r[a] == Entry(i, labels, quant, confs);
        var j :| 0 <= j < |labels| && confs[j] > THRESHOLD && r[b] == Entry(j, labels, quant, confs);
        NatToStringInjective(i, j);
        RepeatOccursTwice(r, a, b);
        DistinctOccursOnce(c, r[a]);
        assert false;
      }
    }
  }

  /**
   * A ranking is a true top list: every class above THRESHOLD that was left
   * out comes, in the comparator's order, after every entry returned.
   */
  lemma LeftOutComesAfter(confs: seq<real>, labels: seq<string>, quant: bool, dir: Direction, r: seq<DetectedObject>)
    requires |labels| <= |confs| && IsRanking(confs, labels, quant, dir, r)
    ensures forall i, k :: 0 <= i < |labels| && confs[i] > THRESHOLD && Entry(i, labels, quant, confs) !in r && 0 <= k < |r|
              ==> Precedes(dir, r[k], Entry(i, labels, quant, confs))
  {
    forall i | 0 <= i < |labels| && confs[i] > THRESHOLD && Entry(i, labels, quant, confs) !in r
      ensures forall k :: 0 <= k < |r| ==> Precedes(dir, r[k], Entry(i, labels, quant, confs))
    {
      LeftOutIsQueued(confs, labels, quant, dir, r, i);
    }
  }

  /** A qualifying class missing from a ranking is among the queued objects it was not polled from. */
  lemma LeftOutIsQueued(confs: seq<real>, labels: seq<string>, quant: bool, dir: Direction, r: seq<DetectedObject>, i: nat)
    requires |labels| <= |confs| && IsRanking(confs, labels, quant, dir, r)
    requires i < |labels| && confs[i] > THRESHOLD && Entry(i, labels, quant, confs) !in r
    ensures Entry(i, labels, quant, confs) in multiset(Candidates(confs, labels, quant, |labels|)) - multiset(r)
  {
    var c := Candidates(confs, labels, quant, |labels|);
    var q := Qualifying(confs, |labels|);
    CandidatesAreEntries(confs, labels, quant, |labels|);
    QualifyingSpec(confs, |labels|);
    var m :| 0 <= m < |q| && q[m] == i;
    assert c[m] == Entry(i, labels, quant, confs);
  }

  /** When no class is above THRESHOLD, the ranking is empty. */
  lemma NothingQualifiesRanksNothing(confs: seq<real>, labels: seq<string>, quant: bool, dir: Direction, r: seq<DetectedObject>)
    requires |labels| <= |confs| && IsRanking(confs, labels, quant, dir, r)
    requires forall i :: 0 <= i < |labels| ==> confs[i] <= THRESHOLD
    ensures r == []
  {
    NoCandidates(confs, labels, quant, |labels|);
  }

  /** When exactly one class is above THRESHOLD, the ranking is that class's entry alone. */
  lemma OneQualifierRanksAlone(confs: seq<real>, labels: seq<string>, quant: bool, dir: Direction, r: seq<DetectedObject>, i: nat)
    requires |labels| <= |confs| && IsRanking(confs, labels, quant, dir, r)
    requires i < |labels| && confs[i] > THRESHOLD
    requires forall j :: 0 <= j < |labels| && j != i ==> confs[j] <= THRESHOLD
    ensures r == [Entry(i, labels, quant, confs)]
  {
    OneCandidate(confs, labels, quant, |labels|, i);
    assert r[0] in multiset(r);
  }

  /** Below `n`, no score above THRESHOLD means no candidate. */
  lemma {:induction false} NoCandidates(confs: seq<real>, labels: seq<string>, quant: bool, n: nat)
    requires n <= |labels| <= |confs|
    requires forall j :: 0 <= j < n ==> confs[j] <= THRESHOLD
    ensures Candidates(confs, labels, quant, n) == []
  {
    if n > 0 {
      NoCandidates(confs, labels, quant, n - 1);
    }
  }

  /** Below `n`, a single score above THRESHOLD means a single candidate, that class's entry. */
  lemma {:induction false} OneCandidate(confs: seq<real>, labels: seq<string>, quant: bool, n: nat, i: nat)
    requires i < n <= |labels| <= |confs|
    requires confs[i] > THRESHOLD
    requires forall j :: 0 <= j < n && j != i ==> confs[j] <= THRESHOLD
    ensures Candidates(confs, labels, quant, n) == [Entry(i, labels, quant, confs)]
  {
    if i == n - 1 {
      NoCandidates(confs, labels, quant, n - 1);
    } else {
      OneCandidate(confs, labels, quant, n - 1, i);
    }
  }

  // ---------------------------------------------------------------------------
  // The two score encodings

  /**
   * A quantized score passes the threshold exactly when it is at least 26:
   * 25 (about 0.098) is left out, 26 (about 0.102) is kept, and 255 is
   * confidence 1.0.
   */
  lemma ByteThreshold(b: bv8)
    ensures ByteConfidence(b) > THRESHOLD <==> b >= 26
    ensures 0.0 <= ByteConfidence(b) <= 1.0
    ensures ByteConfidence(255) == 1.0
  {
    var v := b as int;
    if v >= 26 {
      assert (v as real) / 255.0 >= 26.0 / 255.0;
    } else {
      assert (v as real) / 255.0 <= 25.0 / 255.0;
    }
  }

  /** The quantized ranker returns nothing for an all-zero score vector. */
  lemma ZeroBytesRankNothing(labels: seq<string>, quant: bool, labelProbArray: seq<bv8>, r: seq<DetectedObject>)
    requires |labels| <= |labelProbArray|
    requires IsRanking(ByteConfidences(labelProbArray), labels, quant, Descending, r)
    requires forall i :: 0 <= i < |labelProbArray| ==> labelProbArray[i] == 0
    ensures r == []
  {
    NothingQualifiesRanksNothing(ByteConfidences(labelProbArray), labels, quant, Descending, r);
  }

  /** The float ranker returns nothing for an all-zero score vector. */
  lemma ZeroFloatsRankNothing(labels: seq<string>, quant: bool, labelProbArray: seq<real>, r: seq<DetectedObject>)
    requires |labels| <= |labelProbArray|
    requires IsRanking(labelProbArray, labels, quant, Ascending, r)
    requires forall i :: 0 <= i < |labelProbArray| ==> labelProbArray[i] == 0.0
    ensures r == []
  {
    NothingQualifiesRanksNothing(labelProbArray, labels, quant, Ascending, r);
  }
}
