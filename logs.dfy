/** The records the app keeps and the two list operations it builds them with:
    "put the new entry in front and keep at most `cap`" and "drop every entry
    with this id". */
module Logs {

  /** A mood check-in: the label the user picked and when. */
  datatype MoodEntry = MoodEntry(level: string, timestamp: string)

  /** A saved journal entry. `text` is the trimmed text at save time. */
  datatype JournalEntry = JournalEntry(id: string, prompt: string, text: string, timestamp: string)

  /** How many check-ins the mood history keeps. */
  const MoodHistoryCap: nat := 7

  /** How many entries the journal keeps. */
  const JournalCap: nat := 50

  function Min(a: nat, b: nat): nat { if a <= b then a else b }

  /** `[item, ...s].slice(0, cap)`: the newest item first, the oldest dropped
      once the list would exceed `cap`. */
  function PrependBounded<T>(item: T, s: seq<T>, cap: nat): (r: seq<T>)
    ensures |r| == Min(cap, |s| + 1)
    ensures |r| <= cap
    ensures cap > 0 ==> r[0] == item
    ensures cap > 0 ==> r[1..] == s[..|r| - 1]
  {
    ([item] + s)[..Min(cap, |s| + 1)]
  }

  /** The reverse of a sequence, used to state what repeated prepends build. */
  function Reversed<T>(s: seq<T>): (r: seq<T>)
    ensures |r| == |s|
  {
    if s == [] then [] else [s[|s| - 1]] + Reversed(s[..|s| - 1])
  }

  /** Record `items` one after another (oldest first) onto `s`. */
  function PrependAll<T>(s: seq<T>, items: seq<T>, cap: nat): seq<T>
  {
    if items == [] then s
    else PrependBounded(items[|items| - 1], PrependAll(s, items[..|items| - 1], cap), cap)
  }

  /** Truncating after every prepend keeps the same list as prepending
      everything (newest first) and truncating once. */
  lemma {:induction false} PrependAllIsOneTruncation<T>(s: seq<T>, items: seq<T>, cap: nat)
    requires |s| <= cap
    ensures PrependAll(s, items, cap) == (Reversed(items) + s)[..Min(cap, |items| + |s|)]
  {
    if items == [] {
      assert Reversed(items) + s == s;
    } else {
      var init := items[..|items| - 1];
      var x := items[|items| - 1];
      PrependAllIsOneTruncation(s, init, cap);
      var t := Reversed(init) + s;
      var m := Min(cap, |t|);
      assert PrependAll(s, init, cap) == t[..m];
      assert Reversed(items) + s == [x] + t;
      assert PrependAll(s, items, cap) == ([x] + t[..m])[..Min(cap, m + 1)];
      assert Min(cap, m + 1) == Min(cap, |t| + 1);
      assert ([x] + t[..m])[..Min(cap, m + 1)] == ([x] + t)[..Min(cap, |t| + 1)];
    }
  }

  /** After n check-ins starting from an empty history the history holds
      min(n, cap) entries, the most recent one first. */
  lemma RepeatedPrependLength<T>(items: seq<T>, cap: nat)
    ensures |PrependAll([], items, cap)| == Min(cap, |items|)
    ensures cap > 0 && items != [] ==> PrependAll([], items, cap)[0] == items[|items| - 1]
  {
    PrependAllIsOneTruncation([], items, cap);
    assert Reversed(items) + [] == Reversed(items);
    if cap > 0 && items != [] {
      assert Reversed(items)[0] == items[|items| - 1];
    }
  }

  /** No entry carries `id`. */
  predicate IdAbsent(s: seq<JournalEntry>, id: string)
  {
    forall k :: 0 <= k < |s| ==> s[k].id != id
  }

  /** `entries.filter((e) => e.id !== id)`. */
  function WithoutId(s: seq<JournalEntry>, id: string): (r: seq<JournalEntry>)
    ensures |r| <= |s|
    ensures IdAbsent(r, id)
    ensures forall e :: e in r ==> e in s
  {
    if s == [] then []
    else if s[0].id != id then [s[0]] + WithoutId(s[1..], id)
    else WithoutId(s[1..], id)
  }

  /** Filtering by id distributes over concatenation, so the entries that stay
      keep their relative order. */
  lemma {:induction false} WithoutIdAppend(a: seq<JournalEntry>, b: seq<JournalEntry>, id: string)
    ensures WithoutId(a + b, id) == WithoutId(a, id) + WithoutId(b, id)
  {
    if a == [] {
      assert a + b == b;
    } else {
      assert (a + b)[1..] == a[1..] + b;
      WithoutIdAppend(a[1..], b, id);
    }
  }

  /** Every entry with another id is kept, as often as it occurred; entries
      with the id are all gone. */
  lemma {:induction false} WithoutIdCounts(s: seq<JournalEntry>, id: string, e: JournalEntry)
    ensures multiset(WithoutId(s, id))[e] == if e.id == id then 0 else multiset(s)[e]
  {
    if s != [] {
      WithoutIdCounts(s[1..], id, e);
      assert s == [s[0]] + s[1..];
    }
  }

  /** Deleting an id that no entry carries leaves the journal as it was. */
  lemma {:induction false} WithoutAbsentId(s: seq<JournalEntry>, id: string)
    requires IdAbsent(s, id)
    ensures WithoutId(s, id) == s
  {
    if s != [] {
      WithoutAbsentId(s[1..], id);
    }
  }

  /** Deleting the same id twice is the same as deleting it once. */
  lemma WithoutIdIdempotent(s: seq<JournalEntry>, id: string)
    ensures WithoutId(WithoutId(s, id), id) == WithoutId(s, id)
  {
    WithoutAbsentId(WithoutId(s, id), id);
  }

  /** No two entries share an id. */
  ghost predicate DistinctIds(s: seq<JournalEntry>)
  {
    forall i, j :: 0 <= i < j < |s| ==> s[i].id != s[j].id
  }

  /** When ids are distinct, deleting an id that is present removes exactly
      that one entry and nothing else. */
  lemma {:induction false} WithoutUniqueId(s: seq<JournalEntry>, k: nat)
    requires k < |s| && DistinctIds(s)
    ensures WithoutId(s, s[k].id) == s[..k] + s[k + 1..]
  {
    var id := s[k].id;
    var tail := s[1..];
    assert DistinctIds(tail);
    if k == 0 {
      forall i | 0 <= i < |tail| ensures tail[i].id != id {
        assert tail[i] == s[i + 1];
      }
      WithoutAbsentId(tail, id);
    } else {
      assert s[0].id != id;
      assert tail[k - 1] == s[k];
      WithoutUniqueId(tail, k - 1);
      assert [s[0]] + (tail[..k - 1] + tail[k..]) == s[..k] + s[k + 1..];
    }
  }

  /** Saving with an id that is not yet in use keeps the ids distinct. */
  lemma PrependFreshIdDistinct(e: JournalEntry, s: seq<JournalEntry>, cap: nat)
    requires DistinctIds(s) && IdAbsent(s, e.id)
    ensures DistinctIds(PrependBounded(e, s, cap))
  {
    var r := PrependBounded(e, s, cap);
    forall i, j | 0 <= i < j < |r| ensures r[i].id != r[j].id {
      assert r[j] == s[j - 1];
      if i > 0 { assert r[i] == s[i - 1]; }
    }
  }

  /** Deleting keeps ids distinct. */
  lemma {:induction false} WithoutIdKeepsDistinct(s: seq<JournalEntry>, id: string)
    requires DistinctIds(s)
    ensures DistinctIds(WithoutId(s, id))
  {
    if s != [] {
      assert DistinctIds(s[1..]);
      WithoutIdKeepsDistinct(s[1..], id);
      var rest := WithoutId(s[1..], id);
      if s[0].id != id {
        var r := [s[0]] + rest;
        forall i, j | 0 <= i < j < |r| ensures r[i].id != r[j].id {
          if i == 0 {
            assert r[j] in s[1..];
          }
        }
      }
    }
  }
}
