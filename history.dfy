/**
 * The order in which the history tab lists saved calculations (app.js:194-204) and the
 * removal of one stored record (app.js:263).
 */
module History {
  import opened Pricing

  /** Timestamps never increase along s: the order loadHistory displays. */
  predicate NewestFirst(s: seq<Calculation>)
  {
    forall i, j :: 0 <= i < j < |s| ==> s[i].timestamp >= s[j].timestamp
  }

  /**
   * Timestamps strictly increase along s. Saves reach this order only when no record is saved
   * twice and the clock read at each submission runs forward; the save button can append the
   * same record, with the same timestamp, more than once.
   */
  predicate StrictlyOldestFirst(s: seq<Calculation>)
  {
    forall i, j :: 0 <= i < j < |s| ==> s[i].timestamp < s[j].timestamp
  }

  /** The records of s stamped t, in the order they have in s. */
  function WithTimestamp(s: seq<Calculation>, t: int): seq<Calculation>
  {
    if s == [] then []
    else (if s[0].timestamp == t then [s[0]] else []) + WithTimestamp(s[1..], t)
  }

  /**
   * Puts x in front of the first record of v that is not newer than it: one step of a stable
   * insertion sort that processes the stored list from its end.
   */
  function Insert(v: seq<Calculation>, x: Calculation): (r: seq<Calculation>)
    ensures |r| == |v| + 1
    ensures r[0] == x || (v != [] && r[0] == v[0])
  {
    if v == [] || v[0].timestamp <= x.timestamp then [x] + v
    else [v[0]] + Insert(v[1..], x)
  }

  /** Insert adds x and loses nothing. */
  lemma {:induction false} InsertPermutes(v: seq<Calculation>, x: Calculation)
    ensures multiset(Insert(v, x)) == multiset(v) + multiset{x}
  {
    if v != [] && v[0].timestamp > x.timestamp {
      InsertPermutes(v[1..], x);
      assert v == [v[0]] + v[1..];
    }
  }

  /** Inserting into a newest-first sequence keeps it newest-first. */
  lemma {:induction false} InsertKeepsNewestFirst(v: seq<Calculation>, x: Calculation)
    requires NewestFirst(v)
    ensures NewestFirst(Insert(v, x))
  {
    if v != [] && v[0].timestamp > x.timestamp {
      var rest := Insert(v[1..], x);
      InsertKeepsNewestFirst(v[1..], x);
      assert v[0].timestamp >= rest[0].timestamp;
      var r := [v[0]] + rest;
      forall i, j | 0 <= i < j < |r| ensures r[i].timestamp >= r[j].timestamp {
        if i == 0 {
          assert r[j] == rest[j - 1];
          assert rest[0].timestamp >= rest[j - 1].timestamp;
        } else {
          assert r[i] == rest[i - 1] && r[j] == rest[j - 1];
        }
      }
    }
  }

  /**
   * Inserted into any sequence, x goes ahead of the records that share its timestamp: among
   * those, it comes first, since every record Insert passes over is strictly newer than x.
   */
  lemma {:induction false} InsertWithTimestamp(v: seq<Calculation>, x: Calculation, t: int)
    ensures WithTimestamp(Insert(v, x), t)
      == (if x.timestamp == t then [x] else []) + WithTimestamp(v, t)
  {
    if v == [] || v[0].timestamp <= x.timestamp {
      assert ([x] + v)[1..] == v;
    } else {
      InsertWithTimestamp(v[1..], x, t);
      assert ([v[0]] + Insert(v[1..], x))[1..] == Insert(v[1..], x);
    }
  }

  /**
   * Where Insert puts x: after the first k records of v, which are all newer than x, and
   * before v[k], which is not; the records of v keep their order around it.
   */
  lemma {:induction false} InsertSplit(v: seq<Calculation>, x: Calculation, k: int)
    requires 0 <= k <= |v|
    requires forall m :: 0 <= m < k ==> v[m].timestamp > x.timestamp
    requires k == |v| || v[k].timestamp <= x.timestamp
    ensures forall m :: 0 <= m < k ==> Insert(v, x)[m] == v[m]
    ensures Insert(v, x)[k] == x
    ensures forall m :: k < m <= |v| ==> Insert(v, x)[m] == v[m - 1]
  {
    if k > 0 {
      var tail := v[1..];
      InsertSplit(tail, x, k - 1);
      var r := Insert(v, x);
      assert r == [v[0]] + Insert(tail, x);
    }
  }

  /**
   * A sequence that holds the first k records of v, then x, then the rest of v, is Insert(v, x)
   * when those k records are exactly the ones newer than x at the front of v.
   */
  lemma SinkResult(v: seq<Calculation>, x: Calculation, k: int, w: seq<Calculation>)
    requires 0 <= k <= |v| && |w| == |v| + 1
    requires forall m :: 0 <= m < k ==> v[m].timestamp > x.timestamp
    requires k == |v| || v[k].timestamp <= x.timestamp
    requires forall m :: 0 <= m < k ==> w[m] == v[m]
    requires w[k] == x
    requires forall m :: k < m < |w| ==> w[m] == v[m - 1]
    ensures w == Insert(v, x)
  {
    InsertSplit(v, x, k);
  }

  /**
   * The history as loadHistory shows it: a sort by timestamp, newest first, that is a
   * permutation of s.
   */
  function SortNewestFirst(s: seq<Calculation>): (r: seq<Calculation>)
    ensures |r| == |s|
    ensures multiset(r) == multiset(s)
    ensures NewestFirst(r)
  {
    if s == [] then []
    else
      var rest := SortNewestFirst(s[1..]);
      InsertKeepsNewestFirst(rest, s[0]);
      InsertOfSortedTailPermutes(s, rest);
      Insert(rest, s[0])
  }

  /** Inserting the head of s into a permutation of its tail gives a permutation of s. */
  lemma InsertOfSortedTailPermutes(s: seq<Calculation>, rest: seq<Calculation>)
    requires s != [] && multiset(rest) == multiset(s[1..])
    ensures multiset(Insert(rest, s[0])) == multiset(s)
  {
    InsertPermutes(rest, s[0]);
    assert s == [s[0]] + s[1..];
  }

  /** Sorting the suffix from lo inserts s[lo] into the sorted suffix after it. */
  lemma SortStep(s: seq<Calculation>, lo: int)
    requires 0 <= lo < |s|
    ensures SortNewestFirst(s[lo..]) == Insert(SortNewestFirst(s[lo + 1..]), s[lo])
  {
    assert s[lo..][1..] == s[lo + 1..];
  }

  /** The sort is stable: the records stamped t keep their stored order. */
  lemma {:induction false} SortKeepsTimestampOrder(s: seq<Calculation>, t: int)
    ensures WithTimestamp(SortNewestFirst(s), t) == WithTimestamp(s, t)
  {
    if s != [] {
      SortKeepsTimestampOrder(s[1..], t);
      InsertWithTimestamp(SortNewestFirst(s[1..]), s[0], t);
    }
  }

  /** A newest-first sequence whose head is newer than some record stamped t. */
  lemma {:induction false} HeadIsNewest(s: seq<Calculation>, t: int)
    requires NewestFirst(s) && WithTimestamp(s, t) != []
    ensures s != [] && s[0].timestamp >= t
  {
    if s[0].timestamp != t {
      HeadIsNewest(s[1..], t);
    }
  }

  /** The first record of s is among the records stamped with its own timestamp. */
  lemma HeadHasOwnStamp(s: seq<Calculation>)
    requires s != []
    ensures WithTimestamp(s, s[0].timestamp) != [] && WithTimestamp(s, s[0].timestamp)[0] == s[0]
  {
  }

  /** Two sequences that agree on their head and per timestamp agree per timestamp on their tails. */
  lemma SameHeadSameTailStamps(a: seq<Calculation>, b: seq<Calculation>)
    requires a != [] && b != [] && a[0] == b[0]
    requires forall t :: WithTimestamp(a, t) == WithTimestamp(b, t)
    ensures forall t :: WithTimestamp(a[1..], t) == WithTimestamp(b[1..], t)
  {
    forall t ensures WithTimestamp(a[1..], t) == WithTimestamp(b[1..], t) {
      var pre := if a[0].timestamp == t then [a[0]] else [];
      assert WithTimestamp(a, t) == pre + WithTimestamp(a[1..], t);
      assert WithTimestamp(b, t) == pre + WithTimestamp(b[1..], t);
      assert WithTimestamp(a[1..], t) == WithTimestamp(a, t)[|pre|..];
    }
  }

  /** Dropping the head of a newest-first sequence leaves it newest-first. */
  lemma TailNewestFirst(s: seq<Calculation>)
    requires s != [] && NewestFirst(s)
    ensures NewestFirst(s[1..])
  {
    forall i, j | 0 <= i < j < |s| - 1 ensures s[1..][i].timestamp >= s[1..][j].timestamp {
      assert s[1..][i] == s[i + 1] && s[1..][j] == s[j + 1];
    }
  }

  /**
   * The newest-first order that keeps the stored order of equal timestamps is unique: two
   * newest-first sequences with the same records per timestamp, in the same order, are equal.
   */
  lemma {:induction false} StableOrderUnique(a: seq<Calculation>, b: seq<Calculation>)
    requires NewestFirst(a) && NewestFirst(b)
    requires forall t :: WithTimestamp(a, t) == WithTimestamp(b, t)
    ensures a == b
  {
    if a != [] {
      HeadHasOwnStamp(a);
      assert WithTimestamp(b, a[0].timestamp) != [];
    }
    if b != [] {
      HeadHasOwnStamp(b);
      assert WithTimestamp(a, b[0].timestamp) != [];
    }
    if a != [] {
      HeadIsNewest(b, a[0].timestamp);
      HeadIsNewest(a, b[0].timestamp);
      assert a[0] == WithTimestamp(a, a[0].timestamp)[0] == WithTimestamp(b, b[0].timestamp)[0] == b[0];
      SameHeadSameTailStamps(a, b);
      TailNewestFirst(a);
      TailNewestFirst(b);
      StableOrderUnique(a[1..], b[1..]);
      assert a == [a[0]] + a[1..] && b == [b[0]] + b[1..];
    }
  }

  /**
   * Array.prototype.sort is stable, so whatever algorithm the engine runs, the view it yields
   * is SortNewestFirst: any newest-first arrangement that keeps each timestamp's stored order.
   */
  lemma StableSortIsSortNewestFirst(s: seq<Calculation>, r: seq<Calculation>)
    requires NewestFirst(r)
    requires forall t :: WithTimestamp(r, t) == WithTimestamp(s, t)
    ensures r == SortNewestFirst(s)
  {
    forall t ensures WithTimestamp(r, t) == WithTimestamp(SortNewestFirst(s), t) {
      SortKeepsTimestampOrder(s, t);
    }
    StableOrderUnique(r, SortNewestFirst(s));
  }

  /** The stored list is its own view exactly when it is already newest-first. */
  lemma ViewIsStoredIff(s: seq<Calculation>)
    ensures SortNewestFirst(s) == s <==> NewestFirst(s)
  {
    if NewestFirst(s) {
      forall t ensures WithTimestamp(SortNewestFirst(s), t) == WithTimestamp(s, t) {
        SortKeepsTimestampOrder(s, t);
      }
      StableOrderUnique(SortNewestFirst(s), s);
    }
  }

  /** s reversed. */
  function Reverse(s: seq<Calculation>): (r: seq<Calculation>)
    ensures |r| == |s|
    ensures forall k :: 0 <= k < |s| ==> r[k] == s[|s| - 1 - k]
  {
    if s == [] then [] else Reverse(s[1..]) + [s[0]]
  }

  /** A record older than all of v lands last. */
  lemma {:induction false} InsertOldest(v: seq<Calculation>, x: Calculation)
    requires forall k :: 0 <= k < |v| ==> v[k].timestamp > x.timestamp
    ensures Insert(v, x) == v + [x]
  {
    if v != [] {
      InsertOldest(v[1..], x);
      assert v == [v[0]] + v[1..];
    }
  }

  /** A list with strictly increasing timestamps is shown exactly reversed. */
  lemma {:induction false} OldestFirstViewIsReversed(s: seq<Calculation>)
    requires StrictlyOldestFirst(s)
    ensures SortNewestFirst(s) == Reverse(s)
  {
    if s != [] {
      OldestFirstViewIsReversed(s[1..]);
      InsertOldest(Reverse(s[1..]), s[0]);
    }
  }

  /** history.splice(i, 1): s without its element at i, the others in their order. */
  function RemoveAt(s: seq<Calculation>, i: int): (r: seq<Calculation>)
    requires 0 <= i < |s|
    ensures |r| == |s| - 1
    ensures forall j :: 0 <= j < i ==> r[j] == s[j]
    ensures forall j :: i <= j < |r| ==> r[j] == s[j + 1]
    ensures multiset(r) == multiset(s) - multiset{s[i]}
  {
    assert s == s[..i] + [s[i]] + s[i + 1..];
    s[..i] + s[i + 1..]
  }

  /**
   * Deleting by raw index removes the row the user clicked, for every row, exactly when the
   * stored list is already newest-first.
   */
  lemma RawIndexMatchesViewIff(s: seq<Calculation>)
    ensures (forall i :: 0 <= i < |s| ==> s[i] == SortNewestFirst(s)[i]) <==> NewestFirst(s)
  {
    ViewIsStoredIff(s);
    if forall i :: 0 <= i < |s| ==> s[i] == SortNewestFirst(s)[i] {
      assert SortNewestFirst(s) == s;
    }
  }

  /**
   * On a list with strictly increasing timestamps, the delete button on display row i splices raw record i,
   * while the row shows record |s| - 1 - i; unless those coincide, the shown record survives
   * and a different one is removed. For row 0 the oldest record goes.
   */
  lemma RawDeleteMissesClickedRow(s: seq<Calculation>, i: int)
    requires StrictlyOldestFirst(s)
    requires 0 <= i < |s| && i != |s| - 1 - i
    ensures SortNewestFirst(s)[i] == s[|s| - 1 - i]
    ensures SortNewestFirst(s)[i] != s[i]
    ensures SortNewestFirst(s)[i] in RemoveAt(s, i)
    ensures s[i] !in RemoveAt(s, i)
  {
    OldestFirstViewIsReversed(s);
    var k := |s| - 1 - i;
    assert s[k].timestamp != s[i].timestamp;
    RemoveAtKeepsOthers(s, i, k);
    RemoveAtDropsUnique(s, i);
  }

  /** splice(i, 1) keeps every element at another position. */
  lemma RemoveAtKeepsOthers(s: seq<Calculation>, i: int, k: int)
    requires 0 <= i < |s| && 0 <= k < |s| && k != i
    ensures s[k] in RemoveAt(s, i)
  {
    var r := RemoveAt(s, i);
    if k < i {
      assert r[k] == s[k];
    } else {
      assert r[k - 1] == s[k];
    }
  }

  /** With distinct timestamps, splice(i, 1) leaves no copy of s[i]. */
  lemma RemoveAtDropsUnique(s: seq<Calculation>, i: int)
    requires StrictlyOldestFirst(s) && 0 <= i < |s|
    ensures s[i] !in RemoveAt(s, i)
  {
    var r := RemoveAt(s, i);
    forall j | 0 <= j < |r| ensures r[j].timestamp != s[i].timestamp {
      if j < i {
        assert r[j] == s[j];
      } else {
        assert r[j] == s[j + 1];
      }
    }
  }

  /** Removing one record from a newest-first sequence leaves it newest-first. */
  lemma RemoveKeepsNewestFirst(v: seq<Calculation>, i: int)
    requires NewestFirst(v) && 0 <= i < |v|
    ensures NewestFirst(RemoveAt(v, i))
  {
    var r := RemoveAt(v, i);
    forall a, b | 0 <= a < b < |r| ensures r[a].timestamp >= r[b].timestamp {
      var a' := if a < i then a else a + 1;
      var b' := if b < i then b else b + 1;
      assert r[a] == v[a'] && r[b] == v[b'];
    }
  }

  /**
   * Removing the clicked row from the view and storing that keeps the view newest-first, so
   * the next load lists the old view less exactly that row.
   */
  lemma DisplayedDeleteRemovesClickedRow(s: seq<Calculation>, i: int)
    requires 0 <= i < |s|
    ensures var v := SortNewestFirst(s);
      && SortNewestFirst(RemoveAt(v, i)) == RemoveAt(v, i)
      && multiset(RemoveAt(v, i)) == multiset(s) - multiset{v[i]}
  {
    var v := SortNewestFirst(s);
    RemoveKeepsNewestFirst(v, i);
    ViewIsStoredIff(RemoveAt(v, i));
  }
}
