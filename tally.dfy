/**
 * The `Record<string, number>` count maps that getUserStats builds with
 * `reduce`, read back with `Object.keys` / `Object.entries`, and the two ways
 * it picks a winner: the `reduce` over the keys for the favourite language
 * and the descending `sort` taken at `[0]` for the most starred language.
 * A count map is its own properties in insertion order.
 */
module CountMaps {

  /** One own property of the count map: a language and its count. */
  datatype Entry = Entry(key: string, count: nat)

  type Counts = seq<Entry>

  /** `Object.keys`: the keys in insertion order. */
  function Keys(c: Counts): (r: seq<string>)
    ensures |r| == |c|
    ensures forall i :: 0 <= i < |c| ==> r[i] == c[i].key
  {
    if c == [] then [] else [c[0].key] + Keys(c[1..])
  }

  ghost predicate DistinctKeys(c: Counts) {
    forall i, j :: 0 <= i < j < |c| ==> c[i].key != c[j].key
  }

  ghost predicate PositiveCounts(c: Counts) {
    forall i :: 0 <= i < |c| ==> c[i].count > 0
  }

  /** `acc[k] || 0`: the count of `k`, or 0 when it is not a key. */
  function Get(c: Counts, k: string): (n: nat)
    ensures k !in Keys(c) ==> n == 0
    ensures DistinctKeys(c) ==> forall i :: 0 <= i < |c| && c[i].key == k ==> n == c[i].count
  {
    if c == [] then 0 else if c[0].key == k then c[0].count else Get(c[1..], k)
  }

  /** The sum of the counts. */
  function Sum(c: Counts): nat {
    if c == [] then 0 else c[0].count + Sum(c[1..])
  }

  /** `acc[k] = (acc[k] || 0) + 1`. */
  function Bump(c: Counts, k: string): Counts {
    if c == [] then [Entry(k, 1)]
    else if c[0].key == k then [Entry(k, c[0].count + 1)] + c[1..]
    else [c[0]] + Bump(c[1..], k)
  }

  /** A new key goes last; an existing key keeps its place. */
  lemma {:induction false} BumpKeys(c: Counts, k: string)
    ensures k in Keys(c) ==> Keys(Bump(c, k)) == Keys(c)
    ensures k !in Keys(c) ==> Keys(Bump(c, k)) == Keys(c) + [k]
  {
    if c != [] {
      var r := Bump(c, k);
      if c[0].key == k {
        assert r[1..] == c[1..];
      } else {
        BumpKeys(c[1..], k);
        assert r[1..] == Bump(c[1..], k);
        assert k in Keys(c) <==> k in Keys(c[1..]);
      }
    }
  }

  /** The bumped key counts one more; every other key counts as before. */
  lemma {:induction false} BumpGet(c: Counts, k: string, k': string)
    ensures Get(Bump(c, k), k') == Get(c, k') + (if k' == k then 1 else 0)
  {
    if c != [] {
      var r := Bump(c, k);
      if c[0].key == k {
        assert r[1..] == c[1..];
      } else {
        BumpGet(c[1..], k, k');
        assert r[1..] == Bump(c[1..], k);
      }
    }
  }

  lemma {:induction false} BumpSum(c: Counts, k: string)
    ensures Sum(Bump(c, k)) == Sum(c) + 1
  {
    if c != [] {
      var r := Bump(c, k);
      if c[0].key == k {
        assert r[1..] == c[1..];
      } else {
        BumpSum(c[1..], k);
        assert r[1..] == Bump(c[1..], k);
      }
    }
  }

  lemma {:induction false} BumpPositive(c: Counts, k: string)
    requires PositiveCounts(c)
    ensures PositiveCounts(Bump(c, k))
  {
    if c != [] && c[0].key != k {
      var r := Bump(c, k);
      BumpPositive(c[1..], k);
      assert r[1..] == Bump(c[1..], k);
    }
  }

  lemma BumpDistinct(c: Counts, k: string)
    requires DistinctKeys(c)
    ensures DistinctKeys(Bump(c, k))
  {
    var r := Bump(c, k);
    BumpKeys(c, k);
    assert forall i :: 0 <= i < |r| ==> r[i].key == Keys(r)[i];
    assert forall i :: 0 <= i < |c| ==> c[i].key == Keys(c)[i];
  }

  /**
   * The `reduce` that counts every element of `s` into an empty object,
   * processing `s` from left to right.
   */
  function Tally(s: seq<string>): Counts {
    if s == [] then [] else Bump(Tally(s[..|s| - 1]), s[|s| - 1])
  }

  /**
   * The tally has one key per distinct element of `s`, each counting its
   * occurrences, and the counts add up to `|s|`.
   */
  lemma {:induction false} TallyCounts(s: seq<string>)
    ensures DistinctKeys(Tally(s)) && PositiveCounts(Tally(s))
    ensures forall k :: k in Keys(Tally(s)) <==> k in s
    ensures forall k :: Get(Tally(s), k) == multiset(s)[k]
    ensures Sum(Tally(s)) == |s|
  {
    if s != [] {
      var init, last := s[..|s| - 1], s[|s| - 1];
      assert s == init + [last];
      TallyCounts(init);
      BumpKeys(Tally(init), last);
      BumpSum(Tally(init), last);
      BumpPositive(Tally(init), last);
      BumpDistinct(Tally(init), last);
      forall k ensures Get(Tally(s), k) == multiset(s)[k] {
        BumpGet(Tally(init), last, k);
      }
    }
  }

  /** Distinct keys: as many as there are entries. */
  lemma {:induction false} DistinctKeysCard(c: Counts)
    requires DistinctKeys(c)
    ensures |set k | k in Keys(c)| == |c|
  {
    if c != [] {
      DistinctKeysCard(c[1..]);
      KeySetCons(c);
      HeadKeyFresh(c);
    }
  }

  lemma KeySetCons(c: Counts)
    requires c != []
    ensures (set k | k in Keys(c)) == {c[0].key} + (set k | k in Keys(c[1..]))
  {
    assert Keys(c) == [c[0].key] + Keys(c[1..]);
  }

  lemma HeadKeyFresh(c: Counts)
    requires DistinctKeys(c) && c != []
    ensures c[0].key !in (set k | k in Keys(c[1..]))
  {
    var rest := Keys(c[1..]);
    forall j | 0 <= j < |rest| ensures rest[j] != c[0].key {
      assert rest[j] == c[j + 1].key;
    }
  }

  /** The position of the first occurrence of `k` in `s`. */
  function FirstIndex(s: seq<string>, k: string): (i: nat)
    requires k in s
    ensures i < |s| && s[i] == k
    ensures forall j :: 0 <= j < i ==> s[j] != k
  {
    if s[0] == k then 0 else 1 + FirstIndex(s[1..], k)
  }

  /** The keys of the tally are exactly the elements of `s`. */
  lemma {:induction false} TallyKeys(s: seq<string>)
    ensures forall k :: k in Keys(Tally(s)) <==> k in s
  {
    if s != [] {
      var init, last := s[..|s| - 1], s[|s| - 1];
      assert s == init + [last];
      TallyKeys(init);
      BumpKeys(Tally(init), last);
    }
  }

  /** Appending an element keeps the first occurrence of every element already there. */
  lemma {:induction false} FirstIndexAppend(init: seq<string>, last: string, k: string)
    requires k in init
    ensures FirstIndex(init + [last], k) == FirstIndex(init, k)
  {
    if init[0] != k {
      assert (init + [last])[1..] == init[1..] + [last];
      FirstIndexAppend(init[1..], last, k);
    }
  }

  /** A new element first occurs at the end. */
  lemma FirstIndexOfNew(init: seq<string>, last: string)
    requires last !in init
    ensures FirstIndex(init + [last], last) == |init|
  {
    forall j | 0 <= j < |init| ensures (init + [last])[j] != last {
      assert (init + [last])[j] == init[j];
    }
  }

  /** Every key of `ks` occurs in `s`, and the keys come in the order of their first occurrence. */
  ghost predicate InFirstOccurrenceOrder(ks: seq<string>, s: seq<string>) {
    && (forall i :: 0 <= i < |ks| ==> ks[i] in s)
    && (forall i, j :: 0 <= i < j < |ks| ==> FirstIndex(s, ks[i]) < FirstIndex(s, ks[j]))
  }

  /** The keys of the tally come in the order of their first occurrence in `s`. */
  lemma {:induction false} TallyKeysInFirstOccurrenceOrder(s: seq<string>)
    ensures InFirstOccurrenceOrder(Keys(Tally(s)), s)
  {
    if s != [] {
      var init, last := s[..|s| - 1], s[|s| - 1];
      assert s == init + [last];
      TallyKeysInFirstOccurrenceOrder(init);
      TallyKeys(init);
      BumpKeys(Tally(init), last);
      OrderAfterAppend(Keys(Tally(init)), init, last);
    } else {
      assert Tally(s) == [];
    }
  }

  /** Appending to `s` keeps the order, and a new element may follow the keys. */
  lemma OrderAfterAppend(ks: seq<string>, init: seq<string>, last: string)
    requires InFirstOccurrenceOrder(ks, init)
    ensures InFirstOccurrenceOrder(ks, init + [last])
    ensures last !in init ==> InFirstOccurrenceOrder(ks + [last], init + [last])
  {
    var s := init + [last];
    forall k | k in init ensures k in s && FirstIndex(s, k) == FirstIndex(init, k) {
      FirstIndexAppend(init, last, k);
    }
    if last !in init {
      FirstIndexOfNew(init, last);
      var ks' := ks + [last];
      forall i | 0 <= i < |ks'| ensures ks'[i] in s {
        if i < |ks| { assert ks'[i] == ks[i]; }
      }
      forall i, j | 0 <= i < j < |ks'| ensures FirstIndex(s, ks'[i]) < FirstIndex(s, ks'[j]) {
        assert ks'[i] == ks[i] && ks[i] in init;
        if j < |ks| {
          assert ks'[j] == ks[j];
        } else {
          assert FirstIndex(init, ks[i]) < |init|;
        }
      }
    }
  }

  /**
   * Position `i` holds the last maximal count among the first `m` entries:
   * no entry before `m` counts more, and every later entry before `m` counts less.
   */
  ghost predicate IsLastMax(c: Counts, i: nat, m: nat) {
    && i < m <= |c|
    && (forall j :: 0 <= j < m ==> c[j].count <= c[i].count)
    && (forall j :: i < j < m ==> c[j].count < c[i].count)
  }

  /** Position `i` holds the first maximal count: no entry counts more, every earlier one counts less. */
  ghost predicate IsFirstMax(c: Counts, i: nat) {
    && i < |c|
    && (forall j :: 0 <= j < |c| ==> c[j].count <= c[i].count)
    && (forall j :: 0 <= j < i ==> c[j].count < c[i].count)
  }

  /** `rest.reduce((a, b) => c[a] > c[b] ? a : b, acc)`. */
  function ReduceLater(c: Counts, acc: string, rest: seq<string>): string
    decreases |rest|
  {
    if rest == [] then acc
    else ReduceLater(c, if Get(c, acc) > Get(c, rest[0]) then acc else rest[0], rest[1..])
  }

  /** favoriteLanguage: the reduce over `Object.keys`, or "N/A" for an empty map. */
  function Favorite(c: Counts): string {
    var keys := Keys(c);
    if |keys| > 0 then ReduceLater(c, keys[0], keys[1..]) else "N/A"
  }

  lemma {:induction false} ReduceLaterFindsLastMax(c: Counts, a: nat, m: nat)
    requires DistinctKeys(c) && IsLastMax(c, a, m)
    ensures exists i: nat :: IsLastMax(c, i, |c|) && ReduceLater(c, c[a].key, Keys(c)[m..]) == c[i].key
    decreases |c| - m
  {
    var rest := Keys(c)[m..];
    if m == |c| {
      assert rest == [];
    } else {
      assert rest[0] == c[m].key && rest[1..] == Keys(c)[m + 1..];
      GetAt(c, a);
      GetAt(c, m);
      LastMaxStep(c, a, m);
      if c[a].count > c[m].count {
        ReduceLaterFindsLastMax(c, a, m + 1);
      } else {
        ReduceLaterFindsLastMax(c, m, m + 1);
      }
    }
  }

  /** With distinct keys, looking up an entry's key gives its count. */
  lemma GetAt(c: Counts, i: nat)
    requires DistinctKeys(c) && i < |c|
    ensures Get(c, c[i].key) == c[i].count
  {
  }

  /** One more entry: the last maximum stays unless the new entry counts at least as much. */
  lemma LastMaxStep(c: Counts, a: nat, m: nat)
    requires IsLastMax(c, a, m) && m < |c|
    ensures c[a].count > c[m].count ==> IsLastMax(c, a, m + 1)
    ensures c[a].count <= c[m].count ==> IsLastMax(c, m, m + 1)
  {
  }

  /**
   * The favourite is a key with the greatest count; on a tie the later key
   * wins, because the reduce keeps its accumulator only on a strictly greater count.
   */
  lemma FavoriteIsLastMax(c: Counts)
    requires DistinctKeys(c) && |c| > 0
    ensures exists i: nat :: IsLastMax(c, i, |c|) && Favorite(c) == c[i].key
  {
    assert Keys(c)[1..] == Keys(c)[1..];
    assert IsLastMax(c, 0, 1);
    ReduceLaterFindsLastMax(c, 0, 1);
  }

  /** Inserting into a descending run: `e` goes before the first entry that does not count more. */
  function Insert(e: Entry, s: Counts): (r: Counts)
    ensures multiset(r) == multiset(s) + multiset{e}
    ensures |r| == |s| + 1
  {
    if s == [] || e.count >= s[0].count then [e] + s
    else
      assert s == [s[0]] + s[1..];
      [s[0]] + Insert(e, s[1..])
  }

  /**
   * `Object.entries(...).sort(([, a], [, b]) => b - a)`: a stable sort by
   * descending count, written as an insertion sort (each entry goes in front of
   * the later entries that count no more than it).
   */
  function SortByCountDesc(c: Counts): (r: Counts)
    ensures multiset(r) == multiset(c)
    ensures |r| == |c|
  {
    if c == [] then []
    else
      assert c == [c[0]] + c[1..];
      Insert(c[0], SortByCountDesc(c[1..]))
  }

  ghost predicate Descending(s: Counts) {
    forall i, j :: 0 <= i < j < |s| ==> s[i].count >= s[j].count
  }

  lemma {:induction false} InsertKeepsDescending(e: Entry, s: Counts)
    requires Descending(s)
    ensures Descending(Insert(e, s))
  {
    if s != [] && e.count < s[0].count {
      InsertKeepsDescending(e, s[1..]);
      var t := Insert(e, s[1..]);
      InsertBelow(e, s[1..], s[0].count);
      var r := Insert(e, s);
      assert r == [s[0]] + t;
      forall i, j | 0 <= i < j < |r| ensures r[i].count >= r[j].count {
        assert r[j] == t[j - 1];
        if i > 0 {
          assert r[i] == t[i - 1];
        }
      }
    }
  }

  /** Inserting an entry under a bound into entries under the bound stays under it. */
  lemma {:induction false} InsertBelow(e: Entry, s: Counts, b: nat)
    requires e.count <= b && forall i :: 0 <= i < |s| ==> s[i].count <= b
    ensures forall i :: 0 <= i < |Insert(e, s)| ==> Insert(e, s)[i].count <= b
  {
    if s != [] && e.count < s[0].count {
      InsertBelow(e, s[1..], b);
      assert Insert(e, s) == [s[0]] + Insert(e, s[1..]);
    } else {
      assert Insert(e, s) == [e] + s;
    }
  }

  /** The sort really sorts: counts never increase along the result. */
  lemma {:induction false} SortIsDescending(c: Counts)
    ensures Descending(SortByCountDesc(c))
  {
    if c != [] {
      SortIsDescending(c[1..]);
      InsertKeepsDescending(c[0], SortByCountDesc(c[1..]));
    }
  }

  /** The head of the stable descending sort is the first entry with the greatest count. */
  lemma {:induction false} SortHeadIsFirstMax(c: Counts)
    requires |c| > 0
    ensures exists i: nat :: IsFirstMax(c, i) && SortByCountDesc(c)[0] == c[i]
  {
    if |c| == 1 {
      assert SortByCountDesc(c) == [c[0]];
      assert IsFirstMax(c, 0);
    } else {
      var rest := c[1..];
      SortHeadIsFirstMax(rest);
      var i': nat :| IsFirstMax(rest, i') && SortByCountDesc(rest)[0] == rest[i'];
      var i := HeadAfterInsert(c, i');
      assert IsFirstMax(c, i) && SortByCountDesc(c)[0] == c[i];
    }
  }

  /** One insertion step of the sort keeps the head at the first maximum. */
  lemma HeadAfterInsert(c: Counts, i': nat) returns (i: nat)
    requires |c| > 1 && IsFirstMax(c[1..], i') && SortByCountDesc(c[1..])[0] == c[1..][i']
    ensures IsFirstMax(c, i) && SortByCountDesc(c)[0] == c[i]
  {
    var rest := c[1..];
    var h := SortByCountDesc(rest)[0];
    assert forall j :: 0 < j < |c| ==> c[j] == rest[j - 1];
    if c[0].count >= h.count {
      i := 0;
    } else {
      i := i' + 1;
    }
  }

  /** mostStarredLanguage: `sorted[0]?.[0] ?? "N/A"`. */
  function MostCounted(c: Counts): string {
    var sorted := SortByCountDesc(c);
    if |sorted| > 0 then sorted[0].key else "N/A"
  }

  /** The most counted key is the first key with the greatest count: on a tie the earlier key wins. */
  lemma MostCountedIsFirstMax(c: Counts)
    requires |c| > 0
    ensures exists i: nat :: IsFirstMax(c, i) && MostCounted(c) == c[i].key
  {
    SortHeadIsFirstMax(c);
  }
}
