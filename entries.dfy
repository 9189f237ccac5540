/** Time entries (the objects in the `entries` array of app.js) and the
    operations on lists of them that do not depend on the timer: summing
    durations, finding an entry by id (`entries.find`, app.js:352) and removing
    entries by id (`entries.filter`, app.js:377). */
module Entries {
  import opened Wrappers
  import opened Seqs

  /** One completed session. Timestamps are integer milliseconds of local
      wall-clock time; `end` is stored besides `durationMs`. */
  datatype Entry = Entry(id: string, start: int, end: int, durationMs: int, category: string, note: string)

  /** The invariant every entry the app creates or edits keeps. */
  predicate Consistent(e: Entry)
  {
    e.end == e.start + e.durationMs
  }

  function StartOf(e: Entry): int
  {
    e.start
  }

  /** `list.reduce((acc, e) => acc + e.durationMs, 0)`. */
  function SumDurations(s: seq<Entry>): int
  {
    if s == [] then 0 else s[0].durationMs + SumDurations(s[1..])
  }

  lemma {:induction false} SumDurationsAppend(a: seq<Entry>, b: seq<Entry>)
    ensures SumDurations(a + b) == SumDurations(a) + SumDurations(b)
  {
    if a == [] {
      assert a + b == b;
    } else {
      assert (a + b)[1..] == a[1..] + b;
      SumDurationsAppend(a[1..], b);
    }
  }

  /** The sum of a non-empty list is that of all but its last entry plus the
      last one's duration. */
  lemma SumDurationsLast(s: seq<Entry>)
    requires s != []
    ensures SumDurations(s) == SumDurations(s[..|s| - 1]) + s[|s| - 1].durationMs
  {
    assert s == s[..|s| - 1] + [s[|s| - 1]];
    SumDurationsAppend(s[..|s| - 1], [s[|s| - 1]]);
  }

  /** The sum of durations does not depend on the order of the entries. */
  lemma {:induction false} SumDurationsPermutation(a: seq<Entry>, b: seq<Entry>)
    requires multiset(a) == multiset(b)
    ensures SumDurations(a) == SumDurations(b)
    decreases |a|
  {
    if a != [] {
      assert a[0] in multiset(b);
      var k :| 0 <= k < |b| && b[k] == a[0];
      MatchRemoved(a, b, k);
      SumDurationsPermutation(a[1..], b[..k] + b[k + 1..]);
      SumDurationsRemove(b, k);
    }
  }

  /** Taking out the entry at `k` takes its duration off the sum. */
  lemma SumDurationsRemove(b: seq<Entry>, k: nat)
    requires k < |b|
    ensures SumDurations(b) == b[k].durationMs + SumDurations(b[..k] + b[k + 1..])
  {
    assert b == b[..k] + b[k..];
    SumDurationsAppend(b[..k], b[k..]);
    assert b[k..][1..] == b[k + 1..];
    SumDurationsAppend(b[..k], b[k + 1..]);
  }

  /** `entries.find(x => x.id === id)`, as a position: the first entry with
      that id, or None when there is none. */
  function FirstIndexWithId(s: seq<Entry>, id: string): (r: Option<nat>)
    ensures r.None? <==> forall i :: 0 <= i < |s| ==> s[i].id != id
    ensures r.Some? ==>
      && r.value < |s| && s[r.value].id == id
      && forall i :: 0 <= i < r.value ==> s[i].id != id
  {
    if s == [] then None
    else if s[0].id == id then Some(0)
    else match FirstIndexWithId(s[1..], id)
      case None => None
      case Some(k) => Some(k + 1)
  }

  /** The test `x => x.id !== id` of app.js:377. */
  function OtherId(id: string): Entry -> bool
  {
    (e: Entry) => e.id != id
  }

  /** `entries.filter(x => x.id !== id)`. */
  function WithoutId(s: seq<Entry>, id: string): (r: seq<Entry>)
    ensures forall i :: 0 <= i < |r| ==> r[i] in s && r[i].id != id
    ensures forall i :: 0 <= i < |s| && s[i].id != id ==> s[i] in r
    ensures multiset(r) <= multiset(s)
  {
    FilterMembers(s, OtherId(id));
    FilterSubMultiset(s, OtherId(id));
    Filter(s, OtherId(id))
  }

  /** Removing an id keeps the order of what remains: removing from a
      concatenation is concatenating what remains of each part. */
  lemma WithoutIdKeepsOrder(a: seq<Entry>, b: seq<Entry>, id: string)
    ensures WithoutId(a + b, id) == WithoutId(a, id) + WithoutId(b, id)
  {
    FilterAppend(a, b, OtherId(id));
  }

  /** Removing an id that no entry has changes nothing. */
  lemma {:induction false} WithoutAbsentId(s: seq<Entry>, id: string)
    requires FirstIndexWithId(s, id).None?
    ensures WithoutId(s, id) == s
  {
    if s != [] {
      assert FirstIndexWithId(s[1..], id).None?;
      WithoutAbsentId(s[1..], id);
      assert s == [s[0]] + s[1..];
    }
  }

  /** Exactly the entries with that id are removed: every value's count drops
      to zero when it has the id and stays as it was otherwise. */
  lemma WithoutIdCount(s: seq<Entry>, id: string, e: Entry)
    ensures multiset(WithoutId(s, id))[e] == if e.id == id then 0 else multiset(s)[e]
  {
    FilterCount(s, OtherId(id), e);
  }
}
