/** Python's `dict(collections.Counter(xs))` over strings, and `max(d, key=d.get)`
    over such a dictionary. A Python dict remembers the order in which its keys
    were first inserted, and `max` scans in that order, so a tally is the key
    order together with the count of each key. */
module Counter {
  import opened Sequences

  datatype Tally = Tally(keys: seq<string>, counts: map<string, int>)

  /** Python's `d.get(k, 0)`. */
  function Get(counts: map<string, int>, k: string): int {
    if k in counts then counts[k] else 0
  }

  /** One step of Counter's update loop: `d[x] = d.get(x, 0) + 1`. An existing
      key keeps its place; a new key goes to the end. */
  function Add(t: Tally, x: string): Tally {
    if x in t.counts then Tally(t.keys, t.counts[x := t.counts[x] + 1])
    else Tally(t.keys + [x], t.counts[x := 1])
  }

  /** `t` is `dict(Counter(xs))`: its keys are exactly the distinct elements of
      `xs`, listed once each in order of first occurrence, and each maps to its
      number of occurrences in `xs`. */
  ghost predicate IsTallyOf(t: Tally, xs: seq<string>) {
    && Distinct(t.keys)
    && (forall k :: k in t.keys <==> k in xs)
    && (forall k :: k in t.counts <==> k in xs)
    && (forall k :: k in t.counts ==> t.counts[k] == multiset(xs)[k])
    && (forall i, j :: 0 <= i < j < |t.keys| ==>
          t.keys[i] in xs && t.keys[j] in xs && FirstIndex(xs, t.keys[i]) < FirstIndex(xs, t.keys[j]))
  }

  /** Counting one more element keeps the tally exact. */
  lemma AddStep(t: Tally, ys: seq<string>, x: string)
    requires IsTallyOf(t, ys)
    ensures IsTallyOf(Add(t, x), ys + [x])
  {
    var xs := ys + [x];
    var t' := Add(t, x);
    assert multiset(xs) == multiset(ys) + multiset{x};
    FirstIndexAll(ys, x, t.keys);
    forall k | k in t'.counts ensures t'.counts[k] == multiset(xs)[k] {
      if k == x {
        assert t'.counts[k] == Get(t.counts, x) + 1;
      } else {
        assert t'.counts[k] == t.counts[k];
      }
    }
    forall i, j | 0 <= i < j < |t'.keys|
      ensures t'.keys[i] in xs && t'.keys[j] in xs && FirstIndex(xs, t'.keys[i]) < FirstIndex(xs, t'.keys[j])
    {
      if x !in t.counts && j == |t.keys| {
        assert t'.keys[i] == t.keys[i] && t.keys[i] in ys;
        assert FirstIndex(ys, t.keys[i]) < |ys|;
      } else {
        assert t'.keys[i] == t.keys[i] && t'.keys[j] == t.keys[j];
      }
    }
  }

  /** `dict(Counter(xs))`, built as Counter builds it: one update per element,
      left to right. */
  function Count(xs: seq<string>): (t: Tally)
    ensures IsTallyOf(t, xs)
  {
    if xs == [] then Tally([], map[])
    else
      var ys, x := xs[..|xs| - 1], xs[|xs| - 1];
      assert xs == ys + [x];
      AddStep(Count(ys), ys, x);
      Add(Count(ys), x)
  }

  /** FirstIndexAppend for every key of an earlier tally at once. */
  lemma FirstIndexAll(ys: seq<string>, x: string, keys: seq<string>)
    requires forall k :: k in keys ==> k in ys
    ensures forall k :: k in keys ==> FirstIndex(ys + [x], k) == FirstIndex(ys, k)
    ensures x !in ys ==> FirstIndex(ys + [x], x) == |ys|
  {
    forall k | k in keys ensures FirstIndex(ys + [x], k) == FirstIndex(ys, k) {
      FirstIndexAppend(ys, x, k);
    }
    if x !in ys {
      FirstIndexAppend(ys, x, x);
    }
  }

  /** Sum of the counts of the listed keys (missing keys count zero). */
  function SumOver(keys: seq<string>, counts: map<string, int>): int {
    if keys == [] then 0
    else SumOver(keys[..|keys| - 1], counts) + Get(counts, keys[|keys| - 1])
  }

  /** Sum of all values of a tally. */
  function Total(t: Tally): int {
    SumOver(t.keys, t.counts)
  }

  /** Changing the count of a key listed once shifts the sum by the change;
      changing a key not listed leaves it alone. */
  lemma {:induction false} SumOverUpdate(keys: seq<string>, counts: map<string, int>, x: string, v: int)
    requires Distinct(keys)
    ensures x in keys ==> SumOver(keys, counts[x := v]) == SumOver(keys, counts) - Get(counts, x) + v
    ensures x !in keys ==> SumOver(keys, counts[x := v]) == SumOver(keys, counts)
  {
    if keys != [] {
      var init := keys[..|keys| - 1];
      assert keys == init + [keys[|keys| - 1]];
      assert Distinct(init);
      SumOverUpdate(init, counts, x, v);
      if x == keys[|keys| - 1] {
        assert x !in init;
      }
    }
  }

  /** The values of `dict(Counter(xs))` sum to the length of `xs`. */
  lemma {:induction false} TotalIsLength(xs: seq<string>)
    ensures Total(Count(xs)) == |xs|
  {
    if xs != [] {
      var ys, x := xs[..|xs| - 1], xs[|xs| - 1];
      assert xs == ys + [x];
      TotalIsLength(ys);
      var t := Count(ys);
      assert Count(xs) == Add(t, x);
      assert Distinct(t.keys) && (x in t.keys <==> x in t.counts);
      SumOverUpdate(t.keys, t.counts, x, Get(t.counts, x) + 1);
      if x !in t.counts {
        assert (t.keys + [x])[..|t.keys|] == t.keys;
        assert SumOver(t.keys + [x], t.counts[x := 1]) == SumOver(t.keys, t.counts[x := 1]) + 1;
      }
    }
  }

  /** `max(d, key=d.get)` over the keys in dictionary order: the position of
      the first key whose count no other key exceeds. */
  function MaxIndex(keys: seq<string>, counts: map<string, int>): (i: nat)
    requires |keys| > 0
    ensures i < |keys|
    ensures forall j :: 0 <= j < |keys| ==> Get(counts, keys[j]) <= Get(counts, keys[i])
    ensures forall j :: 0 <= j < i ==> Get(counts, keys[j]) < Get(counts, keys[i])
  {
    if |keys| == 1 then 0
    else
      var b := MaxIndex(keys[..|keys| - 1], counts);
      if Get(counts, keys[|keys| - 1]) > Get(counts, keys[b]) then |keys| - 1 else b
  }
}
