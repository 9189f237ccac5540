/** The overview of app.js:254-306 (`render` and `renderSummary`) without its
    markup: the total of today, the filtered list sorted newest first, the
    per-category totals and their sum. `exportCSV` (app.js:383-390) applies
    the same filter, unsorted. */
module Aggregation {
  import opened Wrappers
  import opened Seqs
  import opened Entries
  import Format

  const DayMs: int := 24 * 60 * 60 * 1000

  /** The calendar day a local wall-clock timestamp falls on. */
  function DayIndex(t: int): int
  {
    t / DayMs
  }

  /** `sameDay(a, b)` (app.js:54-57). */
  predicate SameDay(a: int, b: int)
  {
    DayIndex(a) == DayIndex(b)
  }

  /** A timestamp is on the day of `now` exactly when it lies in the window
      from that day's midnight up to the next midnight. */
  lemma SameDayWindow(t: int, now: int)
    ensures SameDay(t, now) <==> DayIndex(now) * DayMs <= t < DayIndex(now) * DayMs + DayMs
  {
    var d := DayIndex(now);
    if DayIndex(t) > d {
      assert DayIndex(t) * DayMs >= d * DayMs + DayMs;
    } else if DayIndex(t) < d {
      assert DayIndex(t) * DayMs + DayMs <= d * DayMs;
    }
  }

  function StartsOnDayOf(now: int): Entry -> bool
  {
    (e: Entry) => SameDay(e.start, now)
  }

  /** The today total (app.js:256-259): the durations of the entries that
      started on the day of `now`. */
  function TodaySum(entries: seq<Entry>, now: int): int
  {
    SumDurations(Filter(entries, StartsOnDayOf(now)))
  }

  /** `new Date(e.start) >= fFrom`, trivially true without a from-date. */
  function StartsFrom(from: Option<int>): Entry -> bool
  {
    (e: Entry) => from.None? || e.start >= from.value
  }

  /** `new Date(e.start) < toEnd` with `toEnd` the midnight after the day
      that `to` starts, trivially true without a to-date. */
  function StartsUpTo(to: Option<int>): Entry -> bool
  {
    (e: Entry) => to.None? || e.start < to.value + DayMs
  }

  /** `e.category === cat`. */
  function InCategory(cat: string): Entry -> bool
  {
    (e: Entry) => e.category == cat
  }

  /** The category stage as a test: trivially true for "all categories" (""). */
  function CategoryStage(cat: string): Entry -> bool
  {
    (e: Entry) => cat == "" || e.category == cat
  }

  /** The filter of app.js:263-272 (and app.js:385-390). `from` and `to` are
      the midnights that start the chosen days, None when a date field is
      empty; the category "" stands for all categories. Each stage runs only
      when its field is set, as in the source. */
  function Filtered(entries: seq<Entry>, from: Option<int>, to: Option<int>, cat: string): seq<Entry>
  {
    var a := if from.Some? then Filter(entries, StartsFrom(from)) else entries;
    var b := if to.Some? then Filter(a, StartsUpTo(to)) else a;
    if cat != "" then Filter(b, InCategory(cat)) else b
  }

  /** What an entry must satisfy to be shown. */
  predicate Selected(e: Entry, from: Option<int>, to: Option<int>, cat: string)
  {
    && (from.Some? ==> e.start >= from.value)
    && (to.Some? ==> e.start < to.value + DayMs)
    && (cat != "" ==> e.category == cat)
  }

  function Selects(from: Option<int>, to: Option<int>, cat: string): Entry -> bool
  {
    (e: Entry) => Selected(e, from, to, cat)
  }

  /** A filter that keeps everything is the identity. */
  lemma {:induction false} KeepAll(s: seq<Entry>, p: Entry -> bool)
    requires forall i :: 0 <= i < |s| ==> p(s[i])
    ensures Filter(s, p) == s
  {
    if s != [] {
      KeepAll(s[1..], p);
      assert s == [s[0]] + s[1..];
    }
  }

  /** Skipping a stage whose test holds anyway is running it. */
  lemma Stage(s: seq<Entry>, run: bool, p: Entry -> bool)
    requires !run ==> forall i :: 0 <= i < |s| ==> p(s[i])
    ensures (if run then Filter(s, p) else s) == Filter(s, p)
  {
    if !run {
      KeepAll(s, p);
    }
  }

  /** The three successive filters are one filter by `Selected`: the result
      keeps exactly the selected entries, in their original order. */
  lemma FilteredIsSelection(entries: seq<Entry>, from: Option<int>, to: Option<int>, cat: string)
    ensures Filtered(entries, from, to, cat) == Filter(entries, Selects(from, to, cat))
  {
    var pf, pt, pc := StartsFrom(from), StartsUpTo(to), CategoryStage(cat);
    assert Filtered(entries, from, to, cat) == Filter(Filter(Filter(entries, pf), pt), pc) by {
      StagesRun(entries, from, to, cat);
    }
    assert Filter(Filter(Filter(entries, pf), pt), pc) == Filter(entries, Both(Both(pf, pt), pc)) by {
      StagesCompose(entries, pf, pt, pc);
    }
    assert Filter(entries, Both(Both(pf, pt), pc)) == Filter(entries, Selects(from, to, cat)) by {
      forall i | 0 <= i < |entries| ensures Both(Both(pf, pt), pc)(entries[i]) == Selects(from, to, cat)(entries[i]) {
        StagesSelect(from, to, cat, entries[i]);
      }
      FilterAgree(entries, Both(Both(pf, pt), pc), Selects(from, to, cat));
    }
  }

  lemma StagesSelect(from: Option<int>, to: Option<int>, cat: string, e: Entry)
    ensures Both(Both(StartsFrom(from), StartsUpTo(to)), CategoryStage(cat))(e) == Selects(from, to, cat)(e)
  {
  }

  lemma StagesRun(entries: seq<Entry>, from: Option<int>, to: Option<int>, cat: string)
    ensures Filtered(entries, from, to, cat) == Filter(Filter(Filter(entries, StartsFrom(from)), StartsUpTo(to)), CategoryStage(cat))
  {
    var a := Filter(entries, StartsFrom(from));
    var b := Filter(a, StartsUpTo(to));
    Stage(entries, from.Some?, StartsFrom(from));
    Stage(a, to.Some?, StartsUpTo(to));
    Stage(b, cat != "", CategoryStage(cat));
    if cat != "" {
      FilterAgree(b, InCategory(cat), CategoryStage(cat));
    }
  }

  lemma StagesCompose(s: seq<Entry>, p: Entry -> bool, q: Entry -> bool, r: Entry -> bool)
    ensures Filter(Filter(Filter(s, p), q), r) == Filter(s, Both(Both(p, q), r))
  {
    FilterTwice(s, p, q);
    FilterTwice(s, Both(p, q), r);
  }

  /** Membership in the filtered list, both ways, and that it draws on the
      entries without duplicating any. */
  lemma FilteredMembers(entries: seq<Entry>, from: Option<int>, to: Option<int>, cat: string)
    ensures var r := Filtered(entries, from, to, cat);
      && (forall i :: 0 <= i < |r| ==> r[i] in entries && Selected(r[i], from, to, cat))
      && (forall i :: 0 <= i < |entries| && Selected(entries[i], from, to, cat) ==> entries[i] in r)
      && multiset(r) <= multiset(entries)
  {
    FilteredIsSelection(entries, from, to, cat);
    FilterMembers(entries, Selects(from, to, cat));
    FilterSubMultiset(entries, Selects(from, to, cat));
  }

  /** Filtering by category first and by date range afterwards gives the same
      list as the other way round. */
  lemma CategoryFilterCommutes(entries: seq<Entry>, from: Option<int>, to: Option<int>, cat: string)
    ensures Filtered(entries, from, to, cat) == Filtered(Filtered(entries, None, None, cat), from, to, "")
  {
    var p, q := Selects(None, None, cat), Selects(from, to, "");
    var byCat := Filtered(entries, None, None, cat);
    FilteredIsSelection(entries, from, to, cat);
    FilteredIsSelection(entries, None, None, cat);
    FilteredIsSelection(byCat, from, to, "");
    assert Filter(byCat, q) == Filter(entries, Both(p, q)) by {
      FilterTwice(entries, p, q);
    }
    assert Filter(entries, Both(p, q)) == Filter(entries, Selects(from, to, cat)) by {
      forall i | 0 <= i < |entries| ensures Both(p, q)(entries[i]) == Selects(from, to, cat)(entries[i]) {
        SelectionSplits(from, to, cat, entries[i]);
      }
      FilterAgree(entries, Both(p, q), Selects(from, to, cat));
    }
  }

  lemma SelectionSplits(from: Option<int>, to: Option<int>, cat: string, e: Entry)
    ensures Both(Selects(None, None, cat), Selects(from, to, ""))(e) == Selects(from, to, cat)(e)
  {
  }

  /** The today total is the total of the range filter from today to today. */
  lemma TodayIsOneDayRange(entries: seq<Entry>, now: int)
    ensures var d := DayIndex(now) * DayMs;
      TodaySum(entries, now) == SumDurations(Filtered(entries, Some(d), Some(d), ""))
  {
    var d := DayIndex(now) * DayMs;
    FilteredIsSelection(entries, Some(d), Some(d), "");
    forall i | 0 <= i < |entries|
      ensures StartsOnDayOf(now)(entries[i]) == Selects(Some(d), Some(d), "")(entries[i])
    {
      SameDayWindow(entries[i].start, now);
    }
    FilterAgree(entries, StartsOnDayOf(now), Selects(Some(d), Some(d), ""));
  }

  /** `byCat` after the `forEach` of app.js:278-281 over `s`: for each category
      the running sum of its durations. */
  function CategoryTotals(s: seq<Entry>): map<string, int>
  {
    if s == [] then map[]
    else
      var m := CategoryTotals(s[..|s| - 1]);
      var e := s[|s| - 1];
      m[e.category := TotalOf(m, e.category) + e.durationMs]
  }

  /** The order in which `byCat` gained its keys (the order of
      `Object.entries(byCat)`): categories by first appearance in `s`. */
  function CategoryOrder(s: seq<Entry>): seq<string>
  {
    if s == [] then []
    else
      var o := CategoryOrder(s[..|s| - 1]);
      var c := s[|s| - 1].category;
      if c in o then o else o + [c]
  }

  /** `byCat[c] || 0`. */
  function TotalOf(m: map<string, int>, c: string): int
  {
    if c in m then m[c] else 0
  }

  predicate Distinct(s: seq<string>)
  {
    forall i, j :: 0 <= i < j < |s| ==> s[i] != s[j]
  }

  /** The sum of the totals of `m` under the keys `keys`, in that order
      (`Object.values(byCat).reduce(...)` when `keys` is the key order). */
  function SumOver(m: map<string, int>, keys: seq<string>): int
  {
    if keys == [] then 0 else TotalOf(m, keys[0]) + SumOver(m, keys[1..])
  }

  /** The key order lists every key of the totals exactly once. */
  lemma {:induction false} CategoryOrderIsKeys(s: seq<Entry>)
    ensures forall c :: c in CategoryOrder(s) <==> c in CategoryTotals(s)
    ensures Distinct(CategoryOrder(s))
  {
    if s != [] {
      CategoryOrderIsKeys(s[..|s| - 1]);
    }
  }

  /** A category has a total exactly when some entry has that category. */
  lemma {:induction false} CategoryTotalsKeys(s: seq<Entry>, c: string)
    ensures c in CategoryTotals(s) <==> Filter(s, InCategory(c)) != []
  {
    if s != [] {
      CategoryTotalsKeys(s[..|s| - 1], c);
      FilterLast(s, InCategory(c));
    }
  }

  /** Each category's total is the sum of the durations of its entries (and
      0 for a category no entry has). */
  lemma {:induction false} CategoryTotalsMeaning(s: seq<Entry>, c: string)
    ensures TotalOf(CategoryTotals(s), c) == SumDurations(Filter(s, InCategory(c)))
  {
    if s != [] {
      var init, e := s[..|s| - 1], s[|s| - 1];
      var p := InCategory(c);
      CategoryTotalsMeaning(init, c);
      FilterLast(s, p);
      SumDurationsAppend(Filter(init, p), if e.category == c then [e] else []);
    }
  }

  /** Adding `d` to the total of one key adds `d` to a sum over distinct
      keys that include it. */
  lemma {:induction false} SumOverAdd(m: map<string, int>, keys: seq<string>, c: string, d: int)
    requires Distinct(keys) && c in keys
    ensures SumOver(m[c := TotalOf(m, c) + d], keys) == SumOver(m, keys) + d
  {
    if keys[0] == c {
      SumOverOutside(m, keys[1..], c, TotalOf(m, c) + d);
    } else {
      SumOverAdd(m, keys[1..], c, d);
    }
  }

  /** Changing the value of a key outside `keys` leaves the sum over `keys`. */
  lemma {:induction false} SumOverOutside(m: map<string, int>, keys: seq<string>, c: string, v: int)
    requires c !in keys
    ensures SumOver(m[c := v], keys) == SumOver(m, keys)
  {
    if keys != [] {
      SumOverOutside(m, keys[1..], c, v);
    }
  }

  lemma {:induction false} SumOverAppend(m: map<string, int>, keys: seq<string>, c: string)
    ensures SumOver(m, keys + [c]) == SumOver(m, keys) + TotalOf(m, c)
  {
    if keys != [] {
      assert (keys + [c])[1..] == keys[1..] + [c];
      SumOverAppend(m, keys[1..], c);
    }
  }

  /** The grand total of renderSummary (app.js:290), the sum of the
      per-category totals, is the sum of the durations of the list. */
  lemma {:induction false} GrandTotalIsSum(s: seq<Entry>)
    ensures SumOver(CategoryTotals(s), CategoryOrder(s)) == SumDurations(s)
  {
    if s != [] {
      var init, e := s[..|s| - 1], s[|s| - 1];
      var m, o := CategoryTotals(init), CategoryOrder(init);
      assert CategoryTotals(s) == m[e.category := TotalOf(m, e.category) + e.durationMs];
      assert CategoryOrder(s) == if e.category in o then o else o + [e.category];
      GrandTotalIsSum(init);
      CategoryOrderIsKeys(init);
      SumOverStep(m, o, e.category, e.durationMs);
      SumDurationsLast(s);
    }
  }

  /** One step of the `forEach`: adding `d` under `c` (a new key goes to the
      end of the key order) adds `d` to the sum over the keys. */
  lemma SumOverStep(m: map<string, int>, o: seq<string>, c: string, d: int)
    requires forall k :: k in o <==> k in m
    requires Distinct(o)
    ensures SumOver(m[c := TotalOf(m, c) + d], if c in o then o else o + [c]) == SumOver(m, o) + d
  {
    var m' := m[c := TotalOf(m, c) + d];
    if c in o {
      SumOverAdd(m, o, c, d);
    } else {
      SumOverOutside(m, o, c, TotalOf(m, c) + d);
      SumOverAppend(m', o, c);
    }
  }

  /** The `forEach` of app.js:278-281: accumulates `byCat` entry by entry,
      recording the order in which its keys appear. */
  method GroupByCategory(list: seq<Entry>) returns (byCat: map<string, int>, order: seq<string>)
    ensures byCat == CategoryTotals(list) && order == CategoryOrder(list)
  {
    byCat, order := map[], [];
    for i := 0 to |list|
      invariant byCat == CategoryTotals(list[..i])
      invariant order == CategoryOrder(list[..i])
    {
      var e := list[i];
      assert list[..i + 1][..i] == list[..i];
      CategoryOrderIsKeys(list[..i]);
      if e.category !in byCat {
        order := order + [e.category];
      }
      byCat := byCat[e.category := TotalOf(byCat, e.category) + e.durationMs];
    }
    assert list[..|list|] == list;
  }

  /** One line of the summary (an element of `Object.entries(byCat)`). */
  datatype Group = Group(category: string, totalMs: int)

  function TotalMsOf(g: Group): int
  {
    g.totalMs
  }

  /** `Object.entries(byCat)`: the pairs of `byCat` in key order. */
  function Groups(byCat: map<string, int>, order: seq<string>): (r: seq<Group>)
    requires forall k :: k in order ==> k in byCat
    // These only unfold the definition; GroupsMeaning says what the rows are.
    ensures |r| == |order|
    ensures forall i :: 0 <= i < |r| ==> r[i].category == order[i] && r[i].totalMs == byCat[order[i]]
  {
    seq(|order|, i requires 0 <= i < |order| => Group(order[i], byCat[order[i]]))
  }

  /** The sum of the totals shown in the summary rows. */
  function SumTotals(rows: seq<Group>): int
  {
    if rows == [] then 0 else rows[0].totalMs + SumTotals(rows[1..])
  }

  /** When `order` lists each key of `byCat` once, the summary has one row per
      category, each with that category's total, and the rows add up to the
      sum of the totals. */
  lemma {:induction false} GroupsMeaning(byCat: map<string, int>, order: seq<string>)
    requires forall k :: k in order <==> k in byCat
    requires Distinct(order)
    ensures var r := Groups(byCat, order);
      && (forall c :: c in byCat ==> exists i :: 0 <= i < |r| && r[i].category == c)
      && (forall i, j :: 0 <= i < j < |r| ==> r[i].category != r[j].category)
      && (forall i :: 0 <= i < |r| ==> r[i].category in byCat && r[i].totalMs == byCat[r[i].category])
      && SumTotals(r) == SumOver(byCat, order)
  {
    var r := Groups(byCat, order);
    forall c | c in byCat ensures exists i :: 0 <= i < |r| && r[i].category == c {
      var i :| 0 <= i < |order| && order[i] == c;
      assert r[i].category == c;
    }
    GroupsSum(byCat, order);
  }

  lemma {:induction false} GroupsSum(byCat: map<string, int>, order: seq<string>)
    requires forall k :: k in order ==> k in byCat
    ensures SumTotals(Groups(byCat, order)) == SumOver(byCat, order)
  {
    if order != [] {
      GroupsSum(byCat, order[1..]);
      assert Groups(byCat, order)[1..] == Groups(byCat, order[1..]);
    }
  }

  /** What `render` and `renderSummary` put on screen, before formatting. */
  datatype View = View(
    todayTotalMs: int,
    list: seq<Entry>,
    byCat: map<string, int>,
    order: seq<string>,
    rows: seq<Group>,
    totalMs: int)

  /** `render` (app.js:254-286) with `renderSummary` (app.js:288-306), minus
      the markup: `now` is the current time, `from`, `to` and `cat` the values
      of the filter fields. */
  method Render(entries: seq<Entry>, now: int, from: Option<int>, to: Option<int>, cat: string)
    returns (v: View)
    ensures v.todayTotalMs == TodaySum(entries, now)
    ensures multiset(v.list) == multiset(Filtered(entries, from, to, cat))
    ensures SortedDesc(v.list, StartOf)
    ensures v.byCat == CategoryTotals(v.list) && v.order == CategoryOrder(v.list)
    ensures forall c :: TotalOf(v.byCat, c) == SumDurations(Filter(Filtered(entries, from, to, cat), InCategory(c)))
    ensures forall k :: k in v.order ==> k in v.byCat
    ensures SortedDesc(v.rows, TotalMsOf)
    ensures multiset(v.rows) == multiset(Groups(v.byCat, v.order))
    ensures v.totalMs == SumDurations(Filtered(entries, from, to, cat))
  {
    var today := TodaySum(entries, now);
    var filtered := Filtered(entries, from, to, cat);
    var list := SortedCopy(filtered, StartOf);
    var byCat, order := GroupByCategory(list);
    CategoryOrderIsKeys(list);
    PermutedTotals(list, filtered);
    var rows := SortedCopy(Groups(byCat, order), TotalMsOf);
    v := View(today, list, byCat, order, rows, SumOver(byCat, order));
  }

  /** The totals grouped from a reordering of the filtered list are those of
      the filtered list itself. */
  lemma PermutedTotals(list: seq<Entry>, filtered: seq<Entry>)
    requires multiset(list) == multiset(filtered)
    ensures forall c :: TotalOf(CategoryTotals(list), c) == SumDurations(Filter(filtered, InCategory(c)))
    ensures SumOver(CategoryTotals(list), CategoryOrder(list)) == SumDurations(filtered)
  {
    GrandTotalIsSum(list);
    SumDurationsPermutation(list, filtered);
    forall c ensures TotalOf(CategoryTotals(list), c) == SumDurations(Filter(filtered, InCategory(c))) {
      CategoryTotalsMeaning(list, c);
      FilterPermutation(list, filtered, InCategory(c));
      SumDurationsPermutation(Filter(list, InCategory(c)), Filter(filtered, InCategory(c)));
    }
  }

  /* The totals as app.js:278-281 computes them on a plain object `{}`. */

  /** The names every plain object inherits from `Object.prototype`. */
  const InheritedNames: set<string> := {
    "constructor", "hasOwnProperty", "isPrototypeOf", "propertyIsEnumerable",
    "toLocaleString", "toString", "valueOf", "__defineGetter__",
    "__defineSetter__", "__lookupGetter__", "__lookupSetter__", "__proto__"}

  /** A value the loop stores in `byCat`: a number, or the text `+` produces
      when its left operand is not a number. */
  datatype JsValue = Num(n: int) | Str(s: string)

  /** How JavaScript writes an inherited method as text. */
  function NativeFunctionText(c: string): string
  {
    "function " + (if c == "constructor" then "Object" else c) + "() { [native code] }"
  }

  /** `byCat[c] || 0` on the plain object: an own property is read back (the
      loop never stores a falsy value other than 0); an inherited method is a
      function, which is truthy; `__proto__` is `Object.prototype`, an object,
      also truthy; any other name gives 0. */
  function ReadOrZero(m: map<string, JsValue>, c: string): JsValue
  {
    if c in m then m[c]
    else if c == "__proto__" then Str("[object Object]")
    else if c in InheritedNames then Str(NativeFunctionText(c))
    else Num(0)
  }

  /** `v + d`: addition on a number, concatenation of `String(d)` on text. */
  function Plus(v: JsValue, d: int): JsValue
  {
    match v
    case Num(n) => Num(n + d)
    case Str(t) => Str(t + Format.IntToString(d))
  }

  /** The `forEach` of app.js:279-281 as written. Assigning text to
      `byCat.__proto__` is ignored, so that name never becomes a key. */
  function ByCatAsWritten(s: seq<Entry>): map<string, JsValue>
  {
    if s == [] then map[]
    else
      var m := ByCatAsWritten(s[..|s| - 1]);
      var e := s[|s| - 1];
      if e.category == "__proto__" then m
      else m[e.category := Plus(ReadOrZero(m, e.category), e.durationMs)]
  }

  /** The per-category totals as numbers, the way the intended loop stores them. */
  function AsNumbers(m: map<string, int>): map<string, JsValue>
  {
    map c | c in m :: Num(m[c])
  }

  /** One hour under "__proto__" vanishes from `byCat`, and so from the grand
      total at app.js:290. The intended totals keep it. */
  lemma ProtoCategoryLost()
    ensures var p := [Entry("a", 0, 3600000, 3600000, "__proto__", "")];
      && ByCatAsWritten(p) == map[]
      && CategoryTotals(p) == map["__proto__" := 3600000]
  {
    var p := [Entry("a", 0, 3600000, 3600000, "__proto__", "")];
    assert p[..0] == [];
  }

  /** One hour under "constructor" is stored as text (the function's text
      followed by "3600000"), which the summary shows as "NaN:NaN". The
      intended totals hold the number. */
  lemma ConstructorCategoryBecomesText()
    ensures var c := [Entry("b", 0, 3600000, 3600000, "constructor", "")];
      && ByCatAsWritten(c) == map["constructor" := Str(NativeFunctionText("constructor") + "3600000")]
      && CategoryTotals(c) == map["constructor" := 3600000]
  {
    var c := [Entry("b", 0, 3600000, 3600000, "constructor", "")];
    assert c[..0] == [];
    OneHourText();
    assert "constructor" != "__proto__";
  }

  /** `String(3600000)`. */
  lemma OneHourText()
    ensures Format.IntToString(3600000) == "3600000"
  {
    assert Format.NatToString(360) == "360";
    assert Format.NatToString(3600000) == "3600000";
  }

  /** As long as no category is named after an inherited member, the loop as
      written stores exactly the intended totals. */
  lemma {:induction false} AsWrittenAgrees(s: seq<Entry>)
    requires forall i :: 0 <= i < |s| ==> s[i].category !in InheritedNames
    ensures ByCatAsWritten(s) == AsNumbers(CategoryTotals(s))
  {
    if s != [] {
      var init, e := s[..|s| - 1], s[|s| - 1];
      AsWrittenAgrees(init);
      var m := CategoryTotals(init);
      assert ReadOrZero(AsNumbers(m), e.category) == Num(TotalOf(m, e.category));
    }
  }
}
