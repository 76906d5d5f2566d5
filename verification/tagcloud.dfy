/**
 * The tag-frequency cloud of homework02: a slice of (tag, count) pairs kept
 * in non-increasing count order, together with a map from each tag to its
 * position in that slice.
 */
module TagCloud {

  datatype TagStat = TagStat(tag: string, occurrenceCount: int)

  datatype Cloud = Cloud(tagStats: seq<TagStat>, indexes: map<string, int>)

  /** Counts never increase from left to right. */
  predicate Sorted(stats: seq<TagStat>) {
    forall i, j :: 0 <= i < j < |stats| ==> stats[i].occurrenceCount >= stats[j].occurrenceCount
  }

  /** `indexes` maps exactly the tags of `stats`, each to its own position. */
  predicate IndexesAgree(stats: seq<TagStat>, indexes: map<string, int>) {
    && (forall i :: 0 <= i < |stats| ==> stats[i].tag in indexes && indexes[stats[i].tag] == i)
    && (forall t :: t in indexes ==> 0 <= indexes[t] < |stats| && stats[indexes[t]].tag == t)
  }

  /** Every tag present has been added at least once. */
  predicate Positive(stats: seq<TagStat>) {
    forall i :: 0 <= i < |stats| ==> stats[i].occurrenceCount >= 1
  }

  /** The representation invariant the source's comments describe. */
  predicate Valid(c: Cloud) {
    Sorted(c.tagStats) && IndexesAgree(c.tagStats, c.indexes) && Positive(c.tagStats)
  }

  /** The occurrence count recorded for `t`, 0 when `t` is absent. */
  function CountOf(stats: seq<TagStat>, t: string): int {
    if |stats| == 0 then 0
    else (if stats[0].tag == t then stats[0].occurrenceCount else 0) + CountOf(stats[1..], t)
  }

  /** The sum of all recorded counts. */
  function Total(stats: seq<TagStat>): int {
    if |stats| == 0 then 0 else stats[0].occurrenceCount + Total(stats[1..])
  }

  lemma {:induction false} CountOfAppend(a: seq<TagStat>, b: seq<TagStat>, t: string)
    ensures CountOf(a + b, t) == CountOf(a, t) + CountOf(b, t)
  {
    if |a| > 0 {
      assert (a + b)[1..] == a[1..] + b;
      CountOfAppend(a[1..], b, t);
    } else {
      assert a + b == b;
    }
  }

  lemma {:induction false} TotalAppend(a: seq<TagStat>, b: seq<TagStat>)
    ensures Total(a + b) == Total(a) + Total(b)
  {
    if |a| > 0 {
      assert (a + b)[1..] == a[1..] + b;
      TotalAppend(a[1..], b);
    } else {
      assert a + b == b;
    }
  }

  lemma TotalOfParts(a: seq<TagStat>, b: seq<TagStat>, c: seq<TagStat>, d: seq<TagStat>)
    ensures Total(a + b + c + d) == Total(a) + Total(b) + Total(c) + Total(d)
  {
    TotalAppend(a + b + c, d);
    TotalAppend(a + b, c);
    TotalAppend(a, b);
  }

  /** No tag occurs twice in a valid cloud. */
  lemma DistinctTags(c: Cloud)
    requires Valid(c)
    ensures forall i, j :: 0 <= i < j < |c.tagStats| ==> c.tagStats[i].tag != c.tagStats[j].tag
  {
  }

  /** In a valid cloud, CountOf reads the entry that `indexes` points to. */
  lemma {:induction false} CountOfIndexed(c: Cloud, t: string)
    requires Valid(c)
    ensures t in c.indexes ==> CountOf(c.tagStats, t) == c.tagStats[c.indexes[t]].occurrenceCount
    ensures t !in c.indexes ==> CountOf(c.tagStats, t) == 0
  {
    var s := c.tagStats;
    if t in c.indexes {
      var k := c.indexes[t];
      assert s == s[..k] + [s[k]] + s[k + 1..];
      CountOfAppend(s[..k] + [s[k]], s[k + 1..], t);
      CountOfAppend(s[..k], [s[k]], t);
      CountOfAbsent(s[..k], t);
      CountOfAbsent(s[k + 1..], t);
    } else {
      CountOfAbsent(s, t);
    }
  }

  lemma {:induction false} CountOfAbsent(s: seq<TagStat>, t: string)
    requires forall i :: 0 <= i < |s| ==> s[i].tag != t
    ensures CountOf(s, t) == 0
  {
    if |s| > 0 {
      CountOfAbsent(s[1..], t);
    }
  }

  /** `New`: an empty cloud, which is valid. */
  function New(): (c: Cloud)
    ensures Valid(c)
    ensures forall t :: CountOf(c.tagStats, t) == 0
    ensures Total(c.tagStats) == 0
  {
    Cloud([], map[])
  }

  /** `s` with entry `i` moved left to position `p`, the entries between shifted right. */
  function Promote(s: seq<TagStat>, i: nat, p: nat): (r: seq<TagStat>)
    requires p <= i < |s|
    ensures |r| == |s|
    ensures r[p] == s[i]
  {
    seq(|s|, k requires 0 <= k < |s| =>
      if k < p then s[k] else if k == p then s[i] else if k <= i then s[k - 1] else s[k])
  }

  /**
   * Where an entry of count `v` at position `p` comes to rest when it keeps
   * swapping with its left neighbour while that neighbour's count is <= `v`.
   */
  function Landing(s: seq<TagStat>, p: nat, v: int): (r: nat)
    requires p <= |s|
    ensures r <= p
    ensures forall j :: r <= j < p ==> s[j].occurrenceCount <= v
    ensures r == 0 || s[r - 1].occurrenceCount > v
  {
    if p == 0 || s[p - 1].occurrenceCount > v then p else Landing(s, p - 1, v)
  }

  /** `Landing` is the only position with the three properties its contract lists. */
  lemma {:induction false} LandingUnique(s: seq<TagStat>, p: nat, v: int, r: nat)
    requires r <= p <= |s|
    requires forall j :: r <= j < p ==> s[j].occurrenceCount <= v
    requires r == 0 || s[r - 1].occurrenceCount > v
    ensures Landing(s, p, v) == r
    decreases p
  {
    if p > r {
      LandingUnique(s, p - 1, v, r);
    }
  }

  lemma PromoteConcat(s: seq<TagStat>, i: nat, p: nat)
    requires p <= i < |s|
    ensures Promote(s, i, p) == s[..p] + [s[i]] + s[p..i] + s[i + 1..]
  {
  }

  lemma PromoteStep(s: seq<TagStat>, i: nat, p: nat)
    requires 0 < p <= i < |s|
    ensures var r := Promote(s, i, p); r[p - 1 := r[p]][p := r[p - 1]] == Promote(s, i, p - 1)
  {
    var a := Promote(s, i, p)[p - 1 := s[i]][p := s[p - 1]];
    var b := Promote(s, i, p - 1);
    forall k | 0 <= k < |s|
      ensures a[k] == b[k]
    {
    }
  }

  /** Promoting a bumped entry to its landing place keeps the counts sorted. */
  lemma {:induction false} PromoteSorted(s: seq<TagStat>, i: nat, inc: seq<TagStat>, p: nat)
    requires Sorted(s) && p <= i < |s| && |inc| == |s|
    requires inc[i].occurrenceCount == s[i].occurrenceCount + 1
    requires forall j :: 0 <= j < |s| && j != i ==> inc[j] == s[j]
    requires forall j :: p <= j < i ==> s[j].occurrenceCount <= s[i].occurrenceCount + 1
    requires p == 0 || s[p - 1].occurrenceCount > s[i].occurrenceCount + 1
    ensures Sorted(Promote(inc, i, p))
  {
    var v := inc[i].occurrenceCount;
    var r := Promote(inc, i, p);
    forall a, b | 0 <= a < b < |r|
      ensures r[a].occurrenceCount >= r[b].occurrenceCount
    {
      var sa := if a < p || a > i then a else if a == p then i else a - 1;
      var sb := if b < p || b > i then b else if b == p then i else b - 1;
      assert r[a] == inc[sa] && r[b] == inc[sb];
      if a == p {
        if b > i {
          assert s[i].occurrenceCount >= s[b].occurrenceCount;
        }
      } else if b == p {
        assert a == p - 1 || s[a].occurrenceCount >= s[p - 1].occurrenceCount;
      } else {
        assert sa < sb && sa != i && sb != i;
        assert s[sa].occurrenceCount >= s[sb].occurrenceCount;
      }
    }
  }

  /** Entry `i` with its count bumped by one, moved to where `AddTag` leaves it. */
  function Moved(s: seq<TagStat>, i: nat): (r: seq<TagStat>)
    requires i < |s|
    ensures |r| == |s|
  {
    var inc := s[i := TagStat(s[i].tag, s[i].occurrenceCount + 1)];
    Promote(inc, i, Landing(inc, i, inc[i].occurrenceCount))
  }

  /**
   * `AddTag`: an unseen tag is appended with count 1; a present tag gets
   * one more occurrence and moves left past every neighbour whose count is
   * not above its new count, so among equal counts the tag incremented
   * last comes first.
   */
  method AddTag(c: Cloud, tag: string) returns (c': Cloud)
    requires Valid(c)
    ensures Valid(c')
    ensures c'.indexes.Keys == c.indexes.Keys + {tag}
    ensures forall t :: CountOf(c'.tagStats, t) == CountOf(c.tagStats, t) + (if t == tag then 1 else 0)
    ensures Total(c'.tagStats) == Total(c.tagStats) + 1
    ensures tag !in c.indexes ==> c'.tagStats == c.tagStats + [TagStat(tag, 1)]
    ensures tag in c.indexes ==> c'.tagStats == Moved(c.tagStats, c.indexes[tag])
  {
    if tag !in c.indexes {
      c' := Cloud(c.tagStats + [TagStat(tag, 1)], c.indexes[tag := |c.tagStats|]);
      AppendValid(c, tag);
      AppendCounts(c.tagStats, tag);
    } else {
      c' := Increment(c, tag);
    }
  }

  /** `AddTag` of a tag already present: bump its count, then bubble it left. */
  method Increment(c: Cloud, tag: string) returns (c': Cloud)
    requires Valid(c) && tag in c.indexes
    ensures Valid(c')
    ensures c'.indexes.Keys == c.indexes.Keys + {tag}
    ensures forall t :: CountOf(c'.tagStats, t) == CountOf(c.tagStats, t) + (if t == tag then 1 else 0)
    ensures Total(c'.tagStats) == Total(c.tagStats) + 1
    ensures c'.tagStats == Moved(c.tagStats, c.indexes[tag])
  {
    var i0 := c.indexes[tag];
    var stats, indexes := BubbleUp(c.tagStats, c.indexes, i0);
    c' := Cloud(stats, indexes);
    MovedOrder(c.tagStats, i0);
    MovedCounts(c.tagStats, i0);
    AddPresent(c.indexes.Keys, tag);
  }

  /** Bumping and moving entry `i0` keeps the counts sorted and positive. */
  lemma {:induction false} MovedOrder(s: seq<TagStat>, i0: nat)
    requires Sorted(s) && Positive(s) && i0 < |s|
    ensures Sorted(Moved(s, i0)) && Positive(Moved(s, i0))
  {
    var inc := s[i0 := TagStat(s[i0].tag, s[i0].occurrenceCount + 1)];
    var p := Landing(inc, i0, inc[i0].occurrenceCount);
    assert Moved(s, i0) == Promote(inc, i0, p);
    assert forall j :: 0 <= j < i0 ==> inc[j] == s[j];
    PromoteSorted(s, i0, inc, p);
    assert Positive(inc);
  }

  /** Bumping and moving entry `i0` adds one occurrence of its tag and nothing else. */
  lemma MovedCounts(s: seq<TagStat>, i0: nat)
    requires i0 < |s|
    ensures forall t :: CountOf(Moved(s, i0), t) == CountOf(s, t) + (if t == s[i0].tag then 1 else 0)
    ensures Total(Moved(s, i0)) == Total(s) + 1
  {
    var inc := s[i0 := TagStat(s[i0].tag, s[i0].occurrenceCount + 1)];
    var p := Landing(inc, i0, inc[i0].occurrenceCount);
    assert Moved(s, i0) == Promote(inc, i0, p);
    forall t
      ensures CountOf(Promote(inc, i0, p), t) == CountOf(s, t) + (if t == s[i0].tag then 1 else 0)
    {
      PromoteCount(s, i0, inc, p, t);
    }
    PromoteTotal(s, i0, inc, p);
  }

  /**
   * The loop of `AddTag`: entry `i0` swaps places with its left neighbour,
   * and the two index entries with it, while that neighbour's count is not
   * above its own.
   */
  method BubbleUp(s: seq<TagStat>, idx: map<string, int>, i0: nat)
    returns (stats: seq<TagStat>, indexes: map<string, int>)
    requires i0 < |s| && IndexesAgree(s, idx)
    ensures stats == Moved(s, i0)
    ensures IndexesAgree(stats, indexes) && indexes.Keys == idx.Keys
  {
    var inc := s[i0 := TagStat(s[i0].tag, s[i0].occurrenceCount + 1)];
    assert forall j :: 0 <= j < |s| ==> inc[j].tag == s[j].tag;
    stats := inc;
    indexes := idx;
    var ind := i0;
    assert stats == Promote(inc, i0, i0);
    while ind != 0 && stats[ind - 1].occurrenceCount <= stats[ind].occurrenceCount
      invariant 0 <= ind <= i0
      invariant stats == Promote(inc, i0, ind)
      invariant forall j :: ind <= j < i0 ==> inc[j].occurrenceCount <= inc[i0].occurrenceCount
      invariant IndexesAgree(stats, indexes)
      invariant indexes.Keys == idx.Keys
      decreases ind
    {
      stats, indexes := SwapLeft(inc, i0, stats, indexes, ind);
      ind := ind - 1;
    }
    BubbleDone(s, inc, i0, stats, ind);
  }

  /**
   * One round of the `AddTag` loop: the entry at `ind` trades places with
   * its left neighbour, and the two tags trade index entries.
   */
  method SwapLeft(inc: seq<TagStat>, i0: nat, stats: seq<TagStat>, indexes: map<string, int>, ind: nat)
    returns (stats': seq<TagStat>, indexes': map<string, int>)
    requires 0 < ind <= i0 < |inc|
    requires stats == Promote(inc, i0, ind) && IndexesAgree(stats, indexes)
    requires stats[ind - 1].occurrenceCount <= stats[ind].occurrenceCount
    requires forall j :: ind <= j < i0 ==> inc[j].occurrenceCount <= inc[i0].occurrenceCount
    ensures stats' == Promote(inc, i0, ind - 1)
    ensures IndexesAgree(stats', indexes') && indexes'.Keys == indexes.Keys
    ensures forall j :: ind - 1 <= j < i0 ==> inc[j].occurrenceCount <= inc[i0].occurrenceCount
  {
    var tag1 := stats[ind];
    var tag2 := stats[ind - 1];
    assert tag1 == inc[i0] && tag2 == inc[ind - 1];
    SwapAgree(stats, indexes, ind);
    indexes' := indexes[tag1.tag := indexes[tag2.tag]][tag2.tag := indexes[tag1.tag]];
    stats' := stats[ind - 1 := tag1][ind := tag2];
    PromoteStep(inc, i0, ind);
  }

  /** When the loop stops, the entry has reached its landing place. */
  lemma BubbleDone(s: seq<TagStat>, inc: seq<TagStat>, i0: nat, stats: seq<TagStat>, ind: nat)
    requires i0 < |s| && inc == s[i0 := TagStat(s[i0].tag, s[i0].occurrenceCount + 1)]
    requires ind <= i0 && stats == Promote(inc, i0, ind)
    requires forall j :: ind <= j < i0 ==> inc[j].occurrenceCount <= inc[i0].occurrenceCount
    requires !(ind != 0 && stats[ind - 1].occurrenceCount <= stats[ind].occurrenceCount)
    ensures stats == Moved(s, i0)
  {
    assert ind > 0 ==> stats[ind - 1] == inc[ind - 1];
    LandingUnique(inc, i0, inc[i0].occurrenceCount, ind);
  }

  lemma AddPresent(keys: set<string>, t: string)
    requires t in keys
    ensures keys + {t} == keys
  {
  }

  /** An unseen tag appended with count 1 keeps the cloud valid. */
  lemma {:induction false} AppendValid(c: Cloud, tag: string)
    requires Valid(c) && tag !in c.indexes
    ensures Valid(Cloud(c.tagStats + [TagStat(tag, 1)], c.indexes[tag := |c.tagStats|]))
  {
    var stats := c.tagStats + [TagStat(tag, 1)];
    forall a, b | 0 <= a < b < |stats|
      ensures stats[a].occurrenceCount >= stats[b].occurrenceCount
    {
      assert stats[a].occurrenceCount >= 1;
    }
  }

  /** An unseen tag appended with count 1 is counted once. */
  lemma AppendCounts(s: seq<TagStat>, tag: string)
    ensures forall t :: CountOf(s + [TagStat(tag, 1)], t) == CountOf(s, t) + (if t == tag then 1 else 0)
    ensures Total(s + [TagStat(tag, 1)]) == Total(s) + 1
  {
    forall t
      ensures CountOf(s + [TagStat(tag, 1)], t) == CountOf(s, t) + (if t == tag then 1 else 0)
    {
      CountOfAppend(s, [TagStat(tag, 1)], t);
    }
    TotalAppend(s, [TagStat(tag, 1)]);
  }

  /** Swapping entries `ind - 1` and `ind` and their index entries keeps them agreeing. */
  lemma SwapAgree(stats: seq<TagStat>, indexes: map<string, int>, ind: nat)
    requires IndexesAgree(stats, indexes) && 0 < ind < |stats|
    ensures var tag1 := stats[ind];
      var tag2 := stats[ind - 1];
      var swapped := indexes[tag1.tag := indexes[tag2.tag]][tag2.tag := indexes[tag1.tag]];
      IndexesAgree(stats[ind - 1 := tag1][ind := tag2], swapped) && swapped.Keys == indexes.Keys
  {
    var tag1 := stats[ind];
    var tag2 := stats[ind - 1];
    AddPresent(indexes.Keys, tag1.tag);
    AddPresent(indexes.Keys, tag2.tag);
  }

  /** The pieces `Promote` rearranges: before `p`, from `p` up to `i`, entry `i`, after `i`. */
  lemma PromoteParts(s: seq<TagStat>, i0: nat, inc: seq<TagStat>, p: nat)
    requires p <= i0 < |s|
    requires inc == s[i0 := TagStat(s[i0].tag, s[i0].occurrenceCount + 1)]
    ensures s == s[..p] + s[p..i0] + [s[i0]] + s[i0 + 1..]
    ensures Promote(inc, i0, p) == s[..p] + [inc[i0]] + s[p..i0] + s[i0 + 1..]
  {
    assert s == s[..p] + s[p..i0] + [s[i0]] + s[i0 + 1..];
    PromoteConcat(inc, i0, p);
    assert inc[..p] == s[..p] && inc[p..i0] == s[p..i0] && inc[i0 + 1..] == s[i0 + 1..];
  }

  lemma CountOfParts(a: seq<TagStat>, b: seq<TagStat>, c: seq<TagStat>, d: seq<TagStat>, t: string)
    ensures CountOf(a + b + c + d, t) == CountOf(a, t) + CountOf(b, t) + CountOf(c, t) + CountOf(d, t)
  {
    CountOfAppend(a + b + c, d, t);
    CountOfAppend(a + b, c, t);
    CountOfAppend(a, b, t);
  }

  /** Bumping entry `i0` and promoting it adds one to its tag's count and nothing else. */
  lemma {:induction false} PromoteCount(s: seq<TagStat>, i0: nat, inc: seq<TagStat>, p: nat, t: string)
    requires p <= i0 < |s|
    requires inc == s[i0 := TagStat(s[i0].tag, s[i0].occurrenceCount + 1)]
    ensures CountOf(Promote(inc, i0, p), t) == CountOf(s, t) + (if t == s[i0].tag then 1 else 0)
  {
    PromoteParts(s, i0, inc, p);
    CountOfParts(s[..p], [inc[i0]], s[p..i0], s[i0 + 1..], t);
    CountOfParts(s[..p], s[p..i0], [s[i0]], s[i0 + 1..], t);
  }

  /** Bumping entry `i0` and promoting it adds one to the total. */
  lemma PromoteTotal(s: seq<TagStat>, i0: nat, inc: seq<TagStat>, p: nat)
    requires p <= i0 < |s|
    requires inc == s[i0 := TagStat(s[i0].tag, s[i0].occurrenceCount + 1)]
    ensures Total(Promote(inc, i0, p)) == Total(s) + 1
  {
    PromoteParts(s, i0, inc, p);
    TotalOfParts(s[..p], [inc[i0]], s[p..i0], s[i0 + 1..]);
    TotalOfParts(s[..p], s[p..i0], [s[i0]], s[i0 + 1..]);
  }

  /**
   * `TopN(n)`: the `n` most frequent entries, or all of them when there are
   * fewer; a negative `n` makes the Go slice expression panic.
   */
  function TopN(c: Cloud, n: int): (r: seq<TagStat>)
    requires n >= 0
    requires Valid(c)
    ensures |r| == if n <= |c.tagStats| then n else |c.tagStats|
    ensures r == c.tagStats[..|r|]
    ensures forall i, j :: 0 <= i < |r| <= j < |c.tagStats| ==>
              r[i].occurrenceCount >= c.tagStats[j].occurrenceCount
    ensures Sorted(r)
  {
    if n <= |c.tagStats| then c.tagStats[..n] else c.tagStats
  }

  /** Every tag's count in `stats` is its multiplicity in `bag`. */
  ghost predicate CountsAre(stats: seq<TagStat>, bag: multiset<string>)
  {
    forall t :: CountOf(stats, t) == bag[t]
  }

  /**
   * Feeding a sequence of tags to a new cloud: the cloud stays valid, each
   * tag's count is its number of occurrences in the input, and the counts
   * sum to the number of `AddTag` calls.
   */
  method AddAll(tags: seq<string>) returns (c: Cloud)
    ensures Valid(c)
    ensures CountsAre(c.tagStats, multiset(tags))
    ensures Total(c.tagStats) == |tags|
  {
    c := New();
    var k := 0;
    while k < |tags|
      invariant 0 <= k <= |tags|
      invariant Valid(c)
      invariant CountsAre(c.tagStats, multiset(tags[..k]))
      invariant Total(c.tagStats) == k
    {
      var prev := c;
      c := AddTag(c, tags[k]);
      CountsStep(prev.tagStats, c.tagStats, tags, k);
      k := k + 1;
    }
    assert tags[..k] == tags;
  }

  /**
   * One `AddTag` of the next input tag keeps every count equal to that tag's
   * occurrences in the prefix read so far.
   */
  lemma CountsStep(before: seq<TagStat>, after: seq<TagStat>, tags: seq<string>, k: nat)
    requires k < |tags|
    requires CountsAre(before, multiset(tags[..k]))
    requires forall t :: CountOf(after, t) == CountOf(before, t) + (if t == tags[k] then 1 else 0)
    ensures CountsAre(after, multiset(tags[..k + 1]))
  {
    PrefixBag(tags, k);
  }

  /** One tag more in the prefix is one more occurrence of it in the bag. */
  lemma PrefixBag(tags: seq<string>, k: nat)
    requires k < |tags|
    ensures multiset(tags[..k + 1]) == multiset(tags[..k]) + multiset{tags[k]}
  {
    assert tags[..k + 1] == tags[..k] + [tags[k]];
  }
}
