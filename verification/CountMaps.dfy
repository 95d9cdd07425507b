/** Records of counts: a JavaScript object from keys to numbers, its entries in insertion order. */
module CountMaps {
  import opened Sequences

  type Counts = seq<(string, nat)>

  ghost predicate DistinctKeys(counts: Counts) {
    forall i, j :: 0 <= i < j < |counts| ==> counts[i].0 != counts[j].0
  }

  /** One more of `key`: its entry goes up by one, or is added at the end. */
  function Bump(counts: Counts, key: string): Counts {
    if counts == [] then [(key, 1)]
    else if counts[0].0 == key then [(key, counts[0].1 + 1)] + counts[1..]
    else [counts[0]] + Bump(counts[1..], key)
  }

  function Count(entries: seq<string>): Counts {
    if entries == [] then [] else Bump(Count(entries[..|entries| - 1]), entries[|entries| - 1])
  }

  method CountByKey(entries: seq<string>) returns (counts: Counts)
    ensures counts == Count(entries)
  {
    counts := [];
    for k := 0 to |entries|
      invariant counts == Count(entries[..k])
    {
      assert entries[..k + 1][..k] == entries[..k];
      counts := Bump(counts, entries[k]);
    }
    assert entries[..|entries|] == entries;
  }

  function Get(counts: Counts, key: string): nat {
    if counts == [] then 0
    else (if counts[0].0 == key then counts[0].1 else 0) + Get(counts[1..], key)
  }

  function Total(counts: Counts): nat {
    if counts == [] then 0 else counts[0].1 + Total(counts[1..])
  }

  function Repeat(key: string, n: nat): seq<string> {
    seq(n, _ => key)
  }

  /** Each key as many times as it was counted, in the order of the entries. */
  function Expand(counts: Counts): seq<string> {
    if counts == [] then [] else Repeat(counts[0].0, counts[0].1) + Expand(counts[1..])
  }

  // ----- counting

  lemma {:induction false} BumpCounts(counts: Counts, key: string, k: string)
    ensures Get(Bump(counts, key), k) == Get(counts, k) + if k == key then 1 else 0
    ensures Total(Bump(counts, key)) == Total(counts) + 1
  {
    if counts != [] && counts[0].0 != key {
      BumpCounts(counts[1..], key, k);
    }
  }

  /** A count is the number of occurrences, and the total is the number of entries. */
  lemma {:induction false} CountIsMultiplicity(entries: seq<string>, k: string)
    ensures Get(Count(entries), k) == multiset(entries)[k]
    ensures Total(Count(entries)) == |entries|
  {
    if entries != [] {
      SplitLast(entries);
      CountIsMultiplicity(entries[..|entries| - 1], k);
      BumpCounts(Count(entries[..|entries| - 1]), entries[|entries| - 1], k);
    }
  }

  // ----- expanding and counting again

  lemma {:induction false} ExpandMultiplicity(counts: Counts, k: string)
    ensures multiset(Expand(counts))[k] == Get(counts, k)
    ensures |Expand(counts)| == Total(counts)
  {
    if counts != [] {
      ExpandMultiplicity(counts[1..], k);
      RepeatMultiplicity(counts[0].0, counts[0].1, k);
    }
  }

  lemma {:induction false} RepeatMultiplicity(key: string, n: nat, k: string)
    ensures multiset(Repeat(key, n))[k] == if k == key then n else 0
  {
    if n > 0 {
      RepeatMultiplicity(key, n - 1, k);
      assert Repeat(key, n) == Repeat(key, n - 1) + [key];
    }
  }

  lemma {:induction false} BumpLast(counts: Counts, key: string)
    requires forall i :: 0 <= i < |counts| ==> counts[i].0 != key
    ensures Bump(counts, key) == counts + [(key, 1)]
  {
    if counts != [] {
      BumpLast(counts[1..], key);
    }
  }

  lemma {:induction false} BumpAtEnd(counts: Counts, key: string, n: nat)
    requires forall i :: 0 <= i < |counts| ==> counts[i].0 != key
    ensures Bump(counts + [(key, n)], key) == counts + [(key, n + 1)]
  {
    if counts == [] {
      assert counts + [(key, n)] == [(key, n)];
    } else {
      assert (counts + [(key, n)])[1..] == counts[1..] + [(key, n)];
      BumpAtEnd(counts[1..], key, n);
    }
  }

  /** Counting a fresh key `n` times over adds one entry. */
  lemma {:induction false} CountRepeated(entries: seq<string>, key: string, n: nat)
    requires n > 0 && forall i :: 0 <= i < |Count(entries)| ==> Count(entries)[i].0 != key
    ensures Count(entries + Repeat(key, n)) == Count(entries) + [(key, n)]
  {
    assert (entries + Repeat(key, n))[..|entries| + n - 1] == entries + Repeat(key, n - 1);
    if n == 1 {
      assert entries + Repeat(key, 0) == entries;
      BumpLast(Count(entries), key);
    } else {
      CountRepeated(entries, key, n - 1);
      BumpAtEnd(Count(entries), key, n - 1);
    }
  }

  lemma {:induction false} ExpandAppend(a: Counts, b: Counts)
    ensures Expand(a + b) == Expand(a) + Expand(b)
  {
    if a == [] {
      assert a + b == b;
    } else {
      assert (a + b)[1..] == a[1..] + b;
      ExpandAppend(a[1..], b);
    }
  }

  /** Round trip: expanding a record and counting it again gives the record back, order included. */
  lemma {:induction false} CountExpandRoundTrip(counts: Counts)
    requires DistinctKeys(counts) && forall i :: 0 <= i < |counts| ==> counts[i].1 > 0
    ensures Count(Expand(counts)) == counts
  {
    if counts != [] {
      var front, last := counts[..|counts| - 1], counts[|counts| - 1];
      SplitLast(counts);
      CountExpandRoundTrip(front);
      ExpandAppend(front, [last]);
      assert Expand([last]) == Repeat(last.0, last.1);
      CountRepeated(Expand(front), last.0, last.1);
    }
  }

  function Keys(counts: Counts): seq<string> {
    if counts == [] then [] else [counts[0].0] + Keys(counts[1..])
  }

  predicate Positive(counts: Counts) {
    counts == [] || (counts[0].1 > 0 && Positive(counts[1..]))
  }

  lemma {:induction false} BumpKeys(counts: Counts, key: string)
    ensures Keys(Bump(counts, key)) == if key in Keys(counts) then Keys(counts) else Keys(counts) + [key]
    ensures Positive(counts) ==> Positive(Bump(counts, key))
  {
    if counts != [] && counts[0].0 != key {
      BumpKeys(counts[1..], key);
    }
  }

  /** The keys of a count come in the order of their first occurrence, each one once. */
  lemma {:induction false} CountKeys(entries: seq<string>)
    ensures Distinct(Keys(Count(entries))) && Positive(Count(entries))
    ensures forall k :: k in Keys(Count(entries)) <==> k in entries
  {
    if entries != [] {
      SplitLast(entries);
      CountKeys(entries[..|entries| - 1]);
      BumpKeys(Count(entries[..|entries| - 1]), entries[|entries| - 1]);
    }
  }

  lemma {:induction false} EntriesOf(counts: Counts)
    ensures |Keys(counts)| == |counts| && forall i :: 0 <= i < |counts| ==> Keys(counts)[i] == counts[i].0
    ensures Positive(counts) ==> forall i :: 0 <= i < |counts| ==> counts[i].1 > 0
  {
    if counts != [] {
      EntriesOf(counts[1..]);
    }
  }

  /** What counting makes survives being expanded and counted again. */
  lemma RecountIsStable(entries: seq<string>)
    ensures Count(Expand(Count(entries))) == Count(entries)
  {
    CountKeys(entries);
    EntriesOf(Count(entries));
    CountExpandRoundTrip(Count(entries));
  }

  // ----- many records at once

  function ExpandAll(records: seq<Counts>): seq<string> {
    Flatten(Map((r: Counts) => Expand(r), records))
  }

  /** Recounting the expansions of many records adds the records up, key by key and in total. */
  lemma RecountIsPointwiseSum(records: seq<Counts>, k: string)
    ensures Get(Count(ExpandAll(records)), k) == Sum(Map((r: Counts) => Get(r, k), records))
    ensures Total(Count(ExpandAll(records))) == Sum(Map((r: Counts) => Total(r), records))
  {
    CountIsMultiplicity(ExpandAll(records), k);
    ExpandAllMultiplicity(records, k);
  }

  lemma {:induction false} ExpandAllMultiplicity(records: seq<Counts>, k: string)
    ensures multiset(ExpandAll(records))[k] == Sum(Map((r: Counts) => Get(r, k), records))
    ensures |ExpandAll(records)| == Sum(Map((r: Counts) => Total(r), records))
  {
    if records != [] {
      var front, last := records[..|records| - 1], records[|records| - 1];
      SplitLast(records);
      ExpandAllMultiplicity(front, k);
      ExpandMultiplicity(last, k);
      MapAppend((r: Counts) => Expand(r), front, [last]);
      MapAppend((r: Counts) => Get(r, k), front, [last]);
      MapAppend((r: Counts) => Total(r), front, [last]);
      assert ExpandAll(records) == ExpandAll(front) + Expand(last);
    }
  }
}
