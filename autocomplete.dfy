/**
 * Term suggestions (`autocomplete` in src/documents/index.py): the terms the
 * engine matched in the hits of a query are counted, the `limit` most common
 * are kept, and the search term itself, UTF-8 encoded, is moved to the front
 * when it is among them. The engine's search is not modelled: its hits and
 * its `has_matched_terms()` answer are inputs.
 */
module Autocomplete {
  import opened Utf8

  /** One search hit: the (field, term) pairs of `hit.matched_terms()`. */
  datatype Hit = Hit(matchedTerms: seq<(string, Bytes)>)

  /** One item of the `Counter`: a term and how often it was matched. */
  datatype Entry = Entry(term: Bytes, count: nat)

  /** A `Counter`, in its insertion order (the order of a Python dict). */
  type Counter = seq<Entry>

  predicate Distinct<T(==)>(xs: seq<T>) {
    forall i, j :: 0 <= i < j < |xs| ==> xs[i] != xs[j]
  }

  function Terms(c: Counter): (r: seq<Bytes>)
    ensures |r| == |c| && forall k :: 0 <= k < |c| ==> r[k] == c[k].term
  {
    seq(|c|, k requires 0 <= k < |c| => c[k].term)
  }

  /** `counter[t]`: the count of `t`, 0 for a term never seen. */
  function CountOf(c: Counter, t: Bytes): nat {
    if c == [] then 0 else if c[0].term == t then c[0].count else CountOf(c[1..], t)
  }

  predicate Positive(c: Counter) {
    forall k :: 0 <= k < |c| ==> c[k].count >= 1
  }

  /** `counter[t] += 1`: a term seen before is incremented in place, a new one goes last with count 1. */
  function Bump(c: Counter, t: Bytes): (r: Counter)
    ensures Terms(r) == if t in Terms(c) then Terms(c) else Terms(c) + [t]
  {
    if c == [] then [Entry(t, 1)]
    else
      var tail := Terms(c[1..]);
      assert Terms(c) == [c[0].term] + tail;
      if c[0].term == t then
        var r := [Entry(t, c[0].count + 1)] + c[1..];
        assert Terms(r) == [t] + tail;
        r
      else
        var rest := Bump(c[1..], t);
        var r := [c[0]] + rest;
        assert Terms(r) == [c[0].term] + Terms(rest);
        assert t in Terms(c) <==> t in tail;
        r
  }

  lemma {:induction false} BumpCount(c: Counter, t: Bytes, u: Bytes)
    ensures CountOf(Bump(c, t), u) == CountOf(c, u) + if u == t then 1 else 0
  {
    if c != [] && c[0].term != t {
      BumpCount(c[1..], t, u);
    }
  }

  lemma {:induction false} BumpPositive(c: Counter, t: Bytes)
    requires Positive(c)
    ensures Positive(Bump(c, t))
  {
    if c != [] && c[0].term != t {
      BumpPositive(c[1..], t);
    }
  }

  /** The counter after counting `ts` one by one into an empty `Counter()`; no count is zero. */
  function Tally(ts: seq<Bytes>): (r: Counter)
    ensures Positive(r)
  {
    if ts == [] then []
    else
      var init := Tally(ts[..|ts| - 1]);
      BumpPositive(init, ts[|ts| - 1]);
      Bump(init, ts[|ts| - 1])
  }

  /** The terms of `ts` without repeats, each where it first occurs. */
  function FirstOccurrences(ts: seq<Bytes>): seq<Bytes> {
    if ts == [] then []
    else
      var init := ts[..|ts| - 1];
      if ts[|ts| - 1] in init then FirstOccurrences(init) else FirstOccurrences(init) + [ts[|ts| - 1]]
  }

  lemma {:induction false} FirstOccurrencesMembers(ts: seq<Bytes>)
    ensures forall t :: t in FirstOccurrences(ts) <==> t in ts
    ensures Distinct(FirstOccurrences(ts))
  {
    if ts != [] {
      var init := ts[..|ts| - 1];
      FirstOccurrencesMembers(init);
      assert ts == init + [ts[|ts| - 1]];
    }
  }

  /** The counter holds every matched term once, in the order the terms were first matched. */
  lemma {:induction false} TallyTerms(ts: seq<Bytes>)
    ensures Terms(Tally(ts)) == FirstOccurrences(ts)
  {
    if ts != [] {
      var init := ts[..|ts| - 1];
      TallyTerms(init);
      FirstOccurrencesMembers(init);
    }
  }

  /** The count of a term is the number of times it was matched. */
  lemma {:induction false} TallyCounts(ts: seq<Bytes>, t: Bytes)
    ensures CountOf(Tally(ts), t) == multiset(ts)[t]
  {
    if ts != [] {
      var init, last := ts[..|ts| - 1], ts[|ts| - 1];
      TallyCounts(init, t);
      BumpCount(Tally(init), last, t);
      CountSnoc(ts, t);
    }
  }

  lemma CountSnoc(ts: seq<Bytes>, t: Bytes)
    requires ts != []
    ensures multiset(ts)[t] == multiset(ts[..|ts| - 1])[t] + if ts[|ts| - 1] == t then 1 else 0
  {
    assert ts == ts[..|ts| - 1] + [ts[|ts| - 1]];
  }

  /** Counting one more term is one more `Bump`. */
  lemma TallyAppend(ts: seq<Bytes>, t: Bytes)
    ensures Tally(ts + [t]) == Bump(Tally(ts), t)
  {
    assert (ts + [t])[..|ts|] == ts;
  }

  /** Places `e` before the first entry whose count is not larger. */
  function Insert(e: Entry, s: Counter): (r: Counter)
    ensures |r| == |s| + 1
  {
    if s == [] || s[0].count <= e.count then [e] + s else [s[0]] + Insert(e, s[1..])
  }

  /** A stable sort by count, largest first: `sorted(counter.items(), key=itemgetter(1), reverse=True)`. */
  function SortByCount(c: Counter): (r: Counter)
    ensures |r| == |c|
  {
    if c == [] then [] else Insert(c[0], SortByCount(c[1..]))
  }

  predicate ByCountDescending(s: Counter) {
    forall i, j :: 0 <= i < j < |s| ==> s[i].count >= s[j].count
  }

  /** The entries of `s` with count `k`, in order. */
  function WithCount(s: Counter, k: nat): Counter {
    if s == [] then [] else (if s[0].count == k then [s[0]] else []) + WithCount(s[1..], k)
  }

  lemma {:induction false} InsertPermutes(e: Entry, s: Counter)
    ensures multiset(Insert(e, s)) == multiset(s) + multiset{e}
  {
    if s != [] && s[0].count > e.count {
      InsertPermutes(e, s[1..]);
      assert s == [s[0]] + s[1..];
    }
  }

  lemma {:induction false} InsertSorted(e: Entry, s: Counter)
    requires ByCountDescending(s)
    ensures ByCountDescending(Insert(e, s))
  {
    if s != [] && s[0].count > e.count {
      var r := Insert(e, s[1..]);
      InsertSorted(e, s[1..]);
      InsertPermutes(e, s[1..]);
      forall k | 0 <= k < |r|
        ensures r[k].count <= s[0].count
      {
        assert r[k] in multiset(s[1..]) + multiset{e};
        if r[k] != e {
          var j :| 0 <= j < |s| - 1 && s[1..][j] == r[k];
          assert s[j + 1] == r[k];
        }
      }
      assert Insert(e, s) == [s[0]] + r;
    }
  }

  lemma {:induction false} InsertStable(e: Entry, s: Counter, k: nat)
    ensures WithCount(Insert(e, s), k) == (if e.count == k then [e] else []) + WithCount(s, k)
  {
    if s == [] || s[0].count <= e.count {
      assert ([e] + s)[1..] == s;
      assert WithCount([e] + s, k) == (if e.count == k then [e] else []) + WithCount(s, k);
    } else {
      var rest := Insert(e, s[1..]);
      InsertStable(e, s[1..], k);
      assert ([s[0]] + rest)[1..] == rest;
      assert WithCount([s[0]] + rest, k) == (if s[0].count == k then [s[0]] else []) + WithCount(rest, k);
      assert WithCount(s, k) == (if s[0].count == k then [s[0]] else []) + WithCount(s[1..], k);
      if e.count == k {
        assert s[0].count != k;
      }
    }
  }

  lemma DistinctCons<T>(a: T, xs: seq<T>)
    ensures Distinct([a] + xs) <==> a !in xs && Distinct(xs)
  {
    if a !in xs && Distinct(xs) {
      forall i, j | 0 <= i < j < |[a] + xs| ensures ([a] + xs)[i] != ([a] + xs)[j] {
        if i == 0 {
          assert ([a] + xs)[j] == xs[j - 1];
        } else {
          assert ([a] + xs)[i] == xs[i - 1] && ([a] + xs)[j] == xs[j - 1];
        }
      }
    }
    if Distinct([a] + xs) {
      forall k | 0 <= k < |xs| ensures xs[k] != a {
        assert ([a] + xs)[0] == a && ([a] + xs)[k + 1] == xs[k];
      }
      forall i, j | 0 <= i < j < |xs| ensures xs[i] != xs[j] {
        assert ([a] + xs)[i + 1] == xs[i] && ([a] + xs)[j + 1] == xs[j];
      }
    }
  }

  lemma {:induction false} InsertTerms(e: Entry, s: Counter)
    requires Distinct(Terms(s)) && e.term !in Terms(s)
    ensures forall t :: t in Terms(Insert(e, s)) <==> t == e.term || t in Terms(s)
    ensures Distinct(Terms(Insert(e, s)))
  {
    var r := Insert(e, s);
    if s == [] || s[0].count <= e.count {
      assert Terms(r) == [e.term] + Terms(s);
      DistinctCons(e.term, Terms(s));
    } else {
      var rest := s[1..];
      assert Terms(s) == [s[0].term] + Terms(rest);
      DistinctCons(s[0].term, Terms(rest));
      InsertTerms(e, rest);
      assert Terms(r) == [s[0].term] + Terms(Insert(e, rest));
      DistinctCons(s[0].term, Terms(Insert(e, rest)));
    }
  }

  /** The sort orders by count and loses nothing. */
  lemma {:induction false} SortByCountSorted(c: Counter)
    ensures ByCountDescending(SortByCount(c))
    ensures multiset(SortByCount(c)) == multiset(c)
  {
    if c != [] {
      SortByCountSorted(c[1..]);
      InsertSorted(c[0], SortByCount(c[1..]));
      InsertPermutes(c[0], SortByCount(c[1..]));
      assert c == [c[0]] + c[1..];
    }
  }

  /** The sort is stable: entries with equal counts keep the counter's order. */
  lemma {:induction false} SortByCountStable(c: Counter, k: nat)
    ensures WithCount(SortByCount(c), k) == WithCount(c, k)
  {
    if c != [] {
      SortByCountStable(c[1..], k);
      InsertStable(c[0], SortByCount(c[1..]), k);
    }
  }

  lemma {:induction false} SortByCountTerms(c: Counter)
    requires Distinct(Terms(c))
    ensures forall t :: t in Terms(SortByCount(c)) <==> t in Terms(c)
    ensures Distinct(Terms(SortByCount(c)))
  {
    if c != [] {
      assert Terms(c) == [c[0].term] + Terms(c[1..]);
      SortByCountTerms(c[1..]);
      InsertTerms(c[0], SortByCount(c[1..]));
    }
  }

  /** `counter.most_common(n)`: the `n` largest counts, ties in counter order; nothing for `n <= 0`. */
  function MostCommon(c: Counter, n: int): (r: Counter)
    ensures |r| == if n <= 0 then 0 else if n < |c| then n else |c|
  {
    if n <= 0 then [] else var s := SortByCount(c); s[..if n < |s| then n else |s|]
  }

  lemma WithCountPrefix(s: Counter, m: nat, k: nat)
    requires m <= |s|
    ensures WithCount(s[..m], k) <= WithCount(s, k)
    decreases m
  {
    if m > 0 {
      WithCountPrefix(s[1..], m - 1, k);
      assert s[..m][1..] == s[1..][..m - 1];
    }
  }

  /** `most_common` keeps entries of the counter, each at most as often as it occurs there. */
  lemma MostCommonFromCounter(c: Counter, n: int)
    ensures multiset(MostCommon(c, n)) <= multiset(c)
  {
    if n > 0 {
      var s := SortByCount(c);
      var m := |MostCommon(c, n)|;
      SortByCountSorted(c);
      assert s == s[..m] + s[m..];
    }
  }

  /** `most_common` lists the largest count first. */
  lemma MostCommonSorted(c: Counter, n: int)
    ensures ByCountDescending(MostCommon(c, n))
  {
    SortByCountSorted(c);
  }

  /** No entry `most_common` leaves out counts more than an entry it keeps. */
  lemma MostCommonTop(c: Counter, n: int)
    ensures var r := MostCommon(c, n);
            forall e, i :: e in multiset(c) - multiset(r) && 0 <= i < |r| ==> e.count <= r[i].count
  {
    var r := MostCommon(c, n);
    if n > 0 {
      var s := SortByCount(c);
      var m := |r|;
      SortByCountSorted(c);
      assert s == r + s[m..];
      assert multiset(c) == multiset(r) + multiset(s[m..]);
      forall e, i | e in multiset(c) - multiset(r) && 0 <= i < m
        ensures e.count <= r[i].count
      {
        assert e in s[m..];
        var j :| 0 <= j < |s| - m && s[m..][j] == e;
        assert s[m + j] == e;
      }
    }
  }

  /** Among equal counts `most_common` keeps the counter's order, taking a prefix of each count class. */
  lemma MostCommonTies(c: Counter, n: int, k: nat)
    ensures WithCount(MostCommon(c, n), k) <= WithCount(c, k)
  {
    if n > 0 {
      var s := SortByCount(c);
      WithCountPrefix(s, |MostCommon(c, n)|, k);
      SortByCountStable(c, k);
    }
  }

  /** The terms `most_common` returns are distinct when the counter's are. */
  lemma MostCommonDistinct(c: Counter, n: int)
    requires Distinct(Terms(c))
    ensures Distinct(Terms(MostCommon(c, n)))
    ensures forall t :: t in Terms(MostCommon(c, n)) ==> t in Terms(c)
  {
    if n > 0 {
      var s := SortByCount(c);
      SortByCountTerms(c);
      var m := if n < |s| then n else |s|;
      assert Terms(s[..m]) == Terms(s)[..m];
    }
  }

  /** The position `list.index(x)` finds: the first occurrence. */
  function IndexOf(xs: seq<Bytes>, x: Bytes): (i: nat)
    requires x in xs
    ensures i < |xs| && xs[i] == x && x !in xs[..i]
  {
    if xs[0] == x then 0 else assert xs == [xs[0]] + xs[1..]; 1 + IndexOf(xs[1..], x)
  }

  /** `xs.insert(0, xs.pop(xs.index(x)))` when `x in xs`; `xs` unchanged otherwise. */
  function MoveToFront(xs: seq<Bytes>, x: Bytes): (r: seq<Bytes>)
    ensures |r| == |xs|
    ensures x in xs ==> r[0] == x
  {
    if x in xs then var i := IndexOf(xs, x); [x] + xs[..i] + xs[i + 1..] else xs
  }

  /** The elements of `xs` other than `x`, in order. */
  function Without(xs: seq<Bytes>, x: Bytes): seq<Bytes> {
    if xs == [] then [] else (if xs[0] == x then [] else [xs[0]]) + Without(xs[1..], x)
  }

  lemma {:induction false} WithoutConcat(a: seq<Bytes>, b: seq<Bytes>, x: Bytes)
    ensures Without(a + b, x) == Without(a, x) + Without(b, x)
  {
    if a != [] {
      WithoutConcat(a[1..], b, x);
      var head := if a[0] == x then [] else [a[0]];
      assert (a + b)[0] == a[0];
      assert (a + b)[1..] == a[1..] + b;
      assert Without(a + b, x) == head + Without(a[1..] + b, x);
      assert Without(a, x) == head + Without(a[1..], x);
    } else {
      assert a + b == b;
    }
  }

  /** Moving to the front keeps the same elements, `x` first when present. */
  lemma MoveToFrontPermutes(xs: seq<Bytes>, x: Bytes)
    ensures var r := MoveToFront(xs, x);
            && multiset(r) == multiset(xs)
            && (x in xs ==> r[0] == x)
            && (x !in xs ==> r == xs)
  {
    if x in xs {
      var i := IndexOf(xs, x);
      assert xs == xs[..i] + [x] + xs[i + 1..];
    }
  }

  /** Every element other than `x` keeps its relative order. */
  lemma MoveToFrontKeepsOrder(xs: seq<Bytes>, x: Bytes)
    ensures Without(MoveToFront(xs, x), x) == Without(xs, x)
  {
    if x in xs {
      var i := IndexOf(xs, x);
      assert xs == (xs[..i] + [x]) + xs[i + 1..];
      WithoutConcat(xs[..i] + [x], xs[i + 1..], x);
      WithoutConcat(xs[..i], [x], x);
      WithoutConcat([x] + xs[..i], xs[i + 1..], x);
      WithoutConcat([x], xs[..i], x);
    }
  }

  /** A list without repeats stays without repeats. */
  lemma MoveToFrontDistinct(xs: seq<Bytes>, x: Bytes)
    requires Distinct(xs)
    ensures Distinct(MoveToFront(xs, x))
  {
    if x in xs {
      var i := IndexOf(xs, x);
      var r := MoveToFront(xs, x);
      forall a, b | 0 <= a < b < |r| ensures r[a] != r[b] {
        MoveToFrontAt(xs, x, a);
        MoveToFrontAt(xs, x, b);
        assert Source(i, a) != Source(i, b);
      }
    }
  }

  /** Where the element at position `a` came from when the element at `i` was moved to the front. */
  function Source(i: nat, a: nat): nat {
    if a == 0 then i else if a <= i then a - 1 else a
  }

  lemma MoveToFrontAt(xs: seq<Bytes>, x: Bytes, a: nat)
    requires x in xs && a < |xs|
    ensures |MoveToFront(xs, x)| == |xs|
    ensures Source(IndexOf(xs, x), a) < |xs| && MoveToFront(xs, x)[a] == xs[Source(IndexOf(xs, x), a)]
  {
    var i := IndexOf(xs, x);
    var r := MoveToFront(xs, x);
    if 0 < a <= i {
      assert r[a] == xs[..i][a - 1];
    } else if a > i {
      assert r[a] == xs[i + 1..][a - i - 1];
    }
  }

  /** Every matched term of the hits, hit by hit, in `matched_terms()` order. */
  function AllMatched(hits: seq<Hit>): seq<Bytes> {
    if hits == [] then [] else AllMatched(hits[..|hits| - 1]) + MatchedTerms(hits[|hits| - 1].matchedTerms)
  }

  function MatchedTerms(pairs: seq<(string, Bytes)>): (r: seq<Bytes>)
    ensures |r| == |pairs| && forall k :: 0 <= k < |pairs| ==> r[k] == pairs[k].1
  {
    seq(|pairs|, k requires 0 <= k < |pairs| => pairs[k].1)
  }

  /** Counting the next matched term of a hit. */
  lemma TallyStep(prefix: seq<Bytes>, pairs: seq<(string, Bytes)>, j: nat)
    requires j < |pairs|
    ensures Tally(prefix + MatchedTerms(pairs[..j + 1])) == Bump(Tally(prefix + MatchedTerms(pairs[..j])), pairs[j].1)
  {
    assert MatchedTerms(pairs[..j + 1]) == MatchedTerms(pairs[..j]) + [pairs[j].1];
    assert prefix + MatchedTerms(pairs[..j + 1]) == (prefix + MatchedTerms(pairs[..j])) + [pairs[j].1];
    TallyAppend(prefix + MatchedTerms(pairs[..j]), pairs[j].1);
  }

  lemma AllMatchedStep(hits: seq<Hit>, i: nat)
    requires i < |hits|
    ensures AllMatched(hits[..i + 1]) == AllMatched(hits[..i]) + MatchedTerms(hits[i].matchedTerms)
  {
    assert hits[..i + 1][..i] == hits[..i];
  }

  /** The suggestions `autocomplete` returns for the engine's answer to the query. */
  function Suggest(hits: seq<Hit>, hasMatchedTerms: bool, term: string, limit: int): (r: seq<Bytes>)
    ensures !hasMatchedTerms ==> r == []
    ensures hasMatchedTerms ==> |r| == |Ranked(hits, limit)|
  {
    var ranked := if hasMatchedTerms then Terms(Ranked(hits, limit)) else [];
    MoveToFront(ranked, EncodeString(term))
  }

  /**
   * `autocomplete` after the search: count every matched term of every hit,
   * keep the `limit` most common and bring the encoded search term to the front.
   */
  method Suggestions(hits: seq<Hit>, hasMatchedTerms: bool, term: string, limit: int)
    returns (terms: seq<Bytes>)
    ensures terms == Suggest(hits, hasMatchedTerms, term, limit)
  {
    terms := [];
    var termCounts: Counter := [];
    if hasMatchedTerms {
      var i := 0;
      while i < |hits|
        invariant 0 <= i <= |hits|
        invariant termCounts == Tally(AllMatched(hits[..i]))
      {
        var pairs := hits[i].matchedTerms;
        var j := 0;
        assert AllMatched(hits[..i]) + MatchedTerms(pairs[..j]) == AllMatched(hits[..i]);
        while j < |pairs|
          invariant 0 <= j <= |pairs|
          invariant termCounts == Tally(AllMatched(hits[..i]) + MatchedTerms(pairs[..j]))
        {
          TallyStep(AllMatched(hits[..i]), pairs, j);
          termCounts := Bump(termCounts, pairs[j].1);
          j := j + 1;
        }
        assert pairs[..j] == pairs;
        AllMatchedStep(hits, i);
        i := i + 1;
      }
      assert hits[..i] == hits;
      terms := Terms(MostCommon(termCounts, limit));
    }
    var termEncoded := EncodeString(term);
    assert Suggest(hits, hasMatchedTerms, term, limit) == MoveToFront(terms, termEncoded);
    if termEncoded in terms {
      var k := IndexOf(terms, termEncoded);
      PopInsert(terms, termEncoded);
      var popped := terms[k];
      terms := terms[..k] + terms[k + 1..];
      terms := [popped] + terms;
    }
  }

  /** `xs.insert(0, xs.pop(xs.index(x)))` is `MoveToFront`. */
  lemma PopInsert(xs: seq<Bytes>, x: Bytes)
    requires x in xs
    ensures var i := IndexOf(xs, x); [xs[i]] + (xs[..i] + xs[i + 1..]) == MoveToFront(xs, x)
  {
    var i := IndexOf(xs, x);
    assert [x] + (xs[..i] + xs[i + 1..]) == [x] + xs[..i] + xs[i + 1..];
  }

  /**
   * The suggestions: at most `limit` of them, no term twice, each a term the
   * engine matched, and the search term first whenever it is suggested.
   */
  lemma SuggestShape(hits: seq<Hit>, hasMatchedTerms: bool, term: string, limit: int)
    ensures var r := Suggest(hits, hasMatchedTerms, term, limit);
            && |r| <= (if limit <= 0 then 0 else limit)
            && Distinct(r)
            && (forall t :: t in r ==> t in AllMatched(hits))
            && (EncodeString(term) in r ==> r[0] == EncodeString(term))
  {
    var ts := AllMatched(hits);
    var ranked := if hasMatchedTerms then Terms(Ranked(hits, limit)) else [];
    TallyTerms(ts);
    FirstOccurrencesMembers(ts);
    MostCommonDistinct(Tally(ts), limit);
    MoveToFrontPermutes(ranked, EncodeString(term));
    MoveToFrontDistinct(ranked, EncodeString(term));
    var r := MoveToFront(ranked, EncodeString(term));
    forall t | t in r ensures t in ts {
      assert t in multiset(ranked);
    }
  }

  /** No suggestions without matched terms, or for a limit below one. */
  lemma SuggestEmpty(hits: seq<Hit>, hasMatchedTerms: bool, term: string, limit: int)
    requires !hasMatchedTerms || AllMatched(hits) == [] || limit <= 0
    ensures Suggest(hits, hasMatchedTerms, term, limit) == []
  {
  }

  /** The ranking before the search term is moved: the `limit` most common matched terms with their counts. */
  function Ranked(hits: seq<Hit>, limit: int): Counter {
    MostCommon(Tally(AllMatched(hits)), limit)
  }

  /** Apart from the search term, the suggestions are the ranked terms in rank order. */
  lemma SuggestFollowsRanking(hits: seq<Hit>, term: string, limit: int)
    ensures Without(Suggest(hits, true, term, limit), EncodeString(term))
            == Without(Terms(Ranked(hits, limit)), EncodeString(term))
  {
    MoveToFrontKeepsOrder(Terms(Ranked(hits, limit)), EncodeString(term));
  }

  /** Each ranked term carries the number of times it was matched, the largest first. */
  lemma RankedCounts(hits: seq<Hit>, limit: int)
    ensures var ranked := Ranked(hits, limit);
            && ByCountDescending(ranked)
            && forall k :: 0 <= k < |ranked| ==> ranked[k].count == multiset(AllMatched(hits))[ranked[k].term]
  {
    var ts := AllMatched(hits);
    var ranked := Ranked(hits, limit);
    MostCommonSorted(Tally(ts), limit);
    MostCommonFromCounter(Tally(ts), limit);
    TallyTerms(ts);
    FirstOccurrencesMembers(ts);
    forall k | 0 <= k < |ranked| ensures ranked[k].count == multiset(ts)[ranked[k].term] {
      assert ranked[k] in multiset(Tally(ts));
      CountOfMember(Tally(ts), ranked[k]);
      TallyCounts(ts, ranked[k].term);
    }
  }

  /** A matched term that is not ranked was matched no more often than any ranked one. */
  lemma RankedTop(hits: seq<Hit>, limit: int, t: Bytes)
    requires t in AllMatched(hits) && t !in Terms(Ranked(hits, limit))
    ensures forall k :: 0 <= k < |Ranked(hits, limit)| ==>
              multiset(AllMatched(hits))[t] <= Ranked(hits, limit)[k].count
  {
    var ts := AllMatched(hits);
    var c := Tally(ts);
    TallyTerms(ts);
    FirstOccurrencesMembers(ts);
    var j :| 0 <= j < |c| && Terms(c)[j] == t;
    LeftOutCountsLess(c, limit, c[j]);
    CountOfMember(c, c[j]);
    TallyCounts(ts, t);
  }

  /** An entry of the counter whose term `most_common` left out counts no more than any entry it kept. */
  lemma LeftOutCountsLess(c: Counter, n: int, e: Entry)
    requires e in c && e.term !in Terms(MostCommon(c, n))
    ensures forall k :: 0 <= k < |MostCommon(c, n)| ==> e.count <= MostCommon(c, n)[k].count
  {
    var r := MostCommon(c, n);
    forall k | 0 <= k < |r| ensures r[k] != e {
      assert Terms(r)[k] == r[k].term;
    }
    assert e in multiset(c) - multiset(r);
    MostCommonTop(c, n);
  }

  /**
   * Terms matched equally often are ranked in the order they were first
   * matched: each class of equal counts is a prefix of that class in the counter,
   * whose terms are in first-matched order.
   */
  lemma RankedTies(hits: seq<Hit>, limit: int, k: nat)
    ensures Terms(WithCount(Ranked(hits, limit), k)) <= Terms(WithCount(Tally(AllMatched(hits)), k))
    ensures Terms(Tally(AllMatched(hits))) == FirstOccurrences(AllMatched(hits))
  {
    MostCommonTies(Tally(AllMatched(hits)), limit, k);
    TermsPrefix(WithCount(Ranked(hits, limit), k), WithCount(Tally(AllMatched(hits)), k));
    TallyTerms(AllMatched(hits));
  }

  /** In a counter with distinct terms, an entry's count is the count of its term. */
  lemma {:induction false} CountOfMember(c: Counter, e: Entry)
    requires Distinct(Terms(c)) && e in c
    ensures CountOf(c, e.term) == e.count
  {
    if c[0] != e {
      assert Terms(c) == [c[0].term] + Terms(c[1..]);
      assert c[0].term != e.term by {
        var k :| 0 <= k < |c| && c[k] == e;
        assert Terms(c)[k] == e.term;
      }
      CountOfMember(c[1..], e);
    }
  }

  lemma TermsPrefix(a: Counter, b: Counter)
    requires a <= b
    ensures Terms(a) <= Terms(b)
  {
  }
}
