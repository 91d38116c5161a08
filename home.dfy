/**
 * The read side of the home screen (src/module/Home/Home.tsx): the timers
 * grouped by category, the list of categories, and the count shown next to
 * each category.
 */
module Home {
  import opened TimerTypes

  /** The timers of category `c`, in list order. */
  function Group(timers: seq<Timer>, c: string): (r: seq<Timer>)
    ensures |r| <= |timers|
    ensures forall t :: t in r <==> t in timers && t.category == c
    decreases |timers|
  {
    if timers == [] then []
    else
      var init, last := timers[..|timers| - 1], timers[|timers| - 1];
      assert timers == init + [last];
      Group(init, c) + (if last.category == c then [last] else [])
  }

  /** The positions in `timers` of the timers of category `c`, ascending. */
  function CategoryIndices(timers: seq<Timer>, c: string): (r: seq<nat>)
    ensures forall k :: 0 <= k < |r| ==> r[k] < |timers|
    ensures forall k, l :: 0 <= k < l < |r| ==> r[k] < r[l]
    ensures forall i :: 0 <= i < |timers| ==> (i in r <==> timers[i].category == c)
    decreases |timers|
  {
    if timers == [] then []
    else
      var n := |timers| - 1;
      var prev := CategoryIndices(timers[..n], c);
      assert forall i :: 0 <= i < n ==> timers[..n][i] == timers[i];
      prev + (if timers[n].category == c then [n] else [])
  }

  /** The categories of the timers, as a set. */
  function CategorySet(timers: seq<Timer>): set<string> {
    set t | t in timers :: t.category
  }

  /**
   * A group keeps the list order: its k-th timer is the timer at the k-th
   * position holding category `c`, so it has one element per such position.
   */
  lemma {:induction false} GroupFollowsIndices(timers: seq<Timer>, c: string)
    ensures |Group(timers, c)| == |CategoryIndices(timers, c)|
    ensures forall k :: 0 <= k < |Group(timers, c)| ==> Group(timers, c)[k] == timers[CategoryIndices(timers, c)[k]]
    decreases |timers|
  {
    if timers != [] {
      var n := |timers| - 1;
      var init, last := timers[..n], timers[n];
      assert timers == init + [last];
      GroupFollowsIndices(init, c);
      GroupAppend(init, last, c);
      var g, g0 := Group(timers, c), Group(init, c);
      var idx, idx0 := CategoryIndices(timers, c), CategoryIndices(init, c);
      assert idx == idx0 + (if last.category == c then [n] else []);
      assert |g0| == |idx0|;
      forall k | 0 <= k < |g0|
        ensures g[k] == timers[idx[k]]
      {
        var j := idx0[k];
        assert j < n;
        assert idx[k] == j && g[k] == g0[k];
        assert init[j] == timers[j];
      }
      if last.category == c {
        assert g[|g0|] == last && idx[|g0|] == n;
      }
    }
  }

  /** A category no timer holds has an empty group. */
  lemma {:induction false} GroupOfAbsent(timers: seq<Timer>, c: string)
    requires forall t :: t in timers ==> t.category != c
    ensures Group(timers, c) == []
    decreases |timers|
  {
    if timers != [] {
      var init := timers[..|timers| - 1];
      assert forall t :: t in init ==> t in timers;
      GroupOfAbsent(init, c);
    }
  }

  /** The number of timers holding category `c`. */
  function Occurrences(timers: seq<Timer>, c: string): nat {
    |CategoryIndices(timers, c)|
  }

  /** Every timer sits in the group of its own category and in no other. */
  lemma ExactlyOneGroup(timers: seq<Timer>, t: Timer, c: string)
    requires t in timers
    ensures t in Group(timers, c) <==> c == t.category
  {
  }

  /** Sum of the group sizes over a list of categories. */
  function SumSizes(timers: seq<Timer>, cats: seq<string>): nat {
    if cats == [] then 0 else |Group(timers, cats[0])| + SumSizes(timers, cats[1..])
  }

  /** One more timer adds one to the sum when its category is listed once, nothing when it is not listed. */
  lemma {:induction false} SumSizesAppend(timers: seq<Timer>, t: Timer, cats: seq<string>)
    requires forall k, l :: 0 <= k < l < |cats| ==> cats[k] != cats[l]
    ensures SumSizes(timers + [t], cats) == SumSizes(timers, cats) + (if t.category in cats then 1 else 0)
  {
    if cats != [] {
      assert (timers + [t])[..|timers|] == timers;
      SumSizesAppend(timers, t, cats[1..]);
      assert t.category in cats <==> t.category == cats[0] || t.category in cats[1..];
    }
  }

  /** Over a duplicate-free list covering every category, the group sizes add up to the number of timers. */
  lemma {:induction false} SumSizesCovers(timers: seq<Timer>, cats: seq<string>)
    requires forall k, l :: 0 <= k < l < |cats| ==> cats[k] != cats[l]
    requires forall t :: t in timers ==> t.category in cats
    ensures SumSizes(timers, cats) == |timers|
    decreases |timers|
  {
    if timers == [] {
      SumSizesEmpty(cats);
    } else {
      var init, last := timers[..|timers| - 1], timers[|timers| - 1];
      assert timers == init + [last];
      SumSizesCovers(init, cats);
      SumSizesAppend(init, last, cats);
    }
  }

  /** With no timers every group is empty. */
  lemma {:induction false} SumSizesEmpty(cats: seq<string>)
    ensures SumSizes([], cats) == 0
  {
    if cats != [] {
      SumSizesEmpty(cats[1..]);
    }
  }

  /** `groups` holds, under each category of `prefix`, exactly that category's group. */
  ghost predicate Grouped(prefix: seq<Timer>, groups: map<string, seq<Timer>>) {
    groups.Keys == CategorySet(prefix) && forall c :: c in groups ==> groups[c] == Group(prefix, c)
  }

  /** One more timer adds its category to the set of categories. */
  lemma CategorySetAppend(prefix: seq<Timer>, t: Timer)
    ensures CategorySet(prefix + [t]) == CategorySet(prefix) + {t.category}
  {
    assert forall u :: u in prefix + [t] <==> u in prefix || u == t;
  }

  /** One more timer joins the end of its own category's group and no other. */
  lemma GroupAppend(prefix: seq<Timer>, t: Timer, c: string)
    ensures Group(prefix + [t], c) == Group(prefix, c) + (if t.category == c then [t] else [])
  {
    var all := prefix + [t];
    assert all[..|all| - 1] == prefix;
  }

  /** A category held by no timer of the list has an empty group. */
  lemma GroupOfNew(prefix: seq<Timer>, c: string)
    requires c !in CategorySet(prefix)
    ensures Group(prefix, c) == []
  {
    forall u | u in prefix
      ensures u.category != c
    {
      assert u.category in CategorySet(prefix);
    }
    GroupOfAbsent(prefix, c);
  }

  /** Meeting one more timer adds its category to the keys, if it was not there. */
  lemma CategorizeKeys(prefix: seq<Timer>, t: Timer, groups: map<string, seq<Timer>>,
                       mid: map<string, seq<Timer>>, next: map<string, seq<Timer>>)
    requires groups.Keys == CategorySet(prefix)
    requires mid == if t.category in groups then groups else groups[t.category := []]
    requires t.category in mid
    requires next == mid[t.category := mid[t.category] + [t]]
    ensures next.Keys == CategorySet(prefix + [t])
  {
    CategorySetAppend(prefix, t);
    assert next.Keys == groups.Keys + {t.category};
  }

  /** Meeting one more timer pushes it onto its own category's list and leaves the others. */
  lemma CategorizeValues(prefix: seq<Timer>, t: Timer, groups: map<string, seq<Timer>>,
                         mid: map<string, seq<Timer>>, next: map<string, seq<Timer>>)
    requires groups.Keys == CategorySet(prefix)
    requires forall c :: c in groups ==> groups[c] == Group(prefix, c)
    requires mid == if t.category in groups then groups else groups[t.category := []]
    requires t.category in mid
    requires next == mid[t.category := mid[t.category] + [t]]
    ensures forall c :: c in next ==> next[c] == Group(prefix + [t], c)
  {
    if t.category !in groups {
      GroupOfNew(prefix, t.category);
    }
    assert mid[t.category] == Group(prefix, t.category);
    forall c | c in next
      ensures next[c] == Group(prefix + [t], c)
    {
      GroupAppend(prefix, t, c);
      if c != t.category {
        assert next[c] == groups[c];
      }
    }
  }

  /** Meeting one more timer: create its key if new, then push the timer onto it. */
  lemma CategorizeStep(prefix: seq<Timer>, t: Timer, groups: map<string, seq<Timer>>,
                       mid: map<string, seq<Timer>>, next: map<string, seq<Timer>>)
    requires Grouped(prefix, groups)
    requires mid == if t.category in groups then groups else groups[t.category := []]
    requires t.category in mid
    requires next == mid[t.category := mid[t.category] + [t]]
    ensures Grouped(prefix + [t], next)
  {
    CategorizeKeys(prefix, t, groups, mid, next);
    CategorizeValues(prefix, t, groups, mid, next);
  }

  /** Visiting position `i` of the list extends the grouped prefix by one timer. */
  lemma CategorizeVisit(timers: seq<Timer>, i: nat, groups: map<string, seq<Timer>>,
                        mid: map<string, seq<Timer>>, next: map<string, seq<Timer>>)
    requires i < |timers| && Grouped(timers[..i], groups)
    requires mid == if timers[i].category in groups then groups else groups[timers[i].category := []]
    requires timers[i].category in mid
    requires next == mid[timers[i].category := mid[timers[i].category] + [timers[i]]]
    ensures Grouped(timers[..i + 1], next)
  {
    assert timers[..i + 1] == timers[..i] + [timers[i]];
    CategorizeStep(timers[..i], timers[i], groups, mid, next);
  }

  /** Before the first timer nothing is grouped. */
  lemma CategorizeStart(timers: seq<Timer>)
    ensures Grouped(timers[..0], map[])
  {
    assert timers[..0] == [];
    assert CategorySet([]) == {};
  }

  /** After the last timer the whole list is grouped. */
  lemma CategorizeDone(timers: seq<Timer>, groups: map<string, seq<Timer>>)
    requires Grouped(timers[..|timers|], groups)
    ensures groups.Keys == CategorySet(timers)
    ensures forall c :: c in groups ==> groups[c] == Group(timers, c)
  {
    assert timers[..|timers|] == timers;
  }

  /**
   * The `timers.reduce` that builds `categorizedTimers`: a key is created
   * the first time its category is met, and each timer is pushed onto the
   * list under its own category.
   */
  method Categorize(timers: seq<Timer>) returns (groups: map<string, seq<Timer>>)
    ensures groups.Keys == CategorySet(timers)
    ensures forall c :: c in groups ==> groups[c] == Group(timers, c)
  {
    groups := map[];
    var i := 0;
    CategorizeStart(timers);
    while i < |timers|
      invariant 0 <= i <= |timers|
      invariant Grouped(timers[..i], groups)
    {
      var timer := timers[i];
      ghost var before := groups;
      if timer.category !in groups {
        groups := groups[timer.category := []];
      }
      ghost var mid := groups;
      groups := groups[timer.category := groups[timer.category] + [timer]];
      CategorizeVisit(timers, i, before, mid, groups);
      i := i + 1;
    }
    CategorizeDone(timers, groups);
  }

  /**
   * The names a `{}` literal inherits from Object.prototype. For one of
   * these, `acc[c]` on the accumulator reads the inherited member (a
   * function, or the prototype object itself for "__proto__"): a truthy
   * value with no `push`.
   */
  const ObjectPrototypeNames: set<string> := {
    "constructor", "hasOwnProperty", "isPrototypeOf", "propertyIsEnumerable",
    "toLocaleString", "toString", "valueOf", "__proto__",
    "__defineGetter__", "__defineSetter__", "__lookupGetter__", "__lookupSetter__"
  }

  /** Some timer's category is a name the accumulator inherits. */
  predicate HitsInheritedName(timers: seq<Timer>) {
    exists i :: 0 <= i < |timers| && timers[i].category in ObjectPrototypeNames
  }

  /**
   * The reduce exactly as written: on a category the accumulator inherits,
   * `acc[c] || []` keeps the inherited member and `.push` on it throws a
   * TypeError (None here); otherwise it builds the same groups as Categorize.
   */
  method CategorizeAsWritten(timers: seq<Timer>) returns (r: Option<map<string, seq<Timer>>>)
    ensures r.None? <==> HitsInheritedName(timers)
    ensures r.Some? ==> r.value.Keys == CategorySet(timers)
    ensures r.Some? ==> forall c :: c in r.value ==> r.value[c] == Group(timers, c)
  {
    var groups := map[];
    var i := 0;
    CategorizeStart(timers);
    while i < |timers|
      invariant 0 <= i <= |timers|
      invariant Grouped(timers[..i], groups)
      invariant forall j :: 0 <= j < i ==> timers[j].category !in ObjectPrototypeNames
    {
      var timer := timers[i];
      if timer.category in ObjectPrototypeNames {
        return None;
      }
      ghost var before := groups;
      if timer.category !in groups {
        groups := groups[timer.category := []];
      }
      ghost var mid := groups;
      groups := groups[timer.category := groups[timer.category] + [timer]];
      CategorizeVisit(timers, i, before, mid, groups);
      i := i + 1;
    }
    CategorizeDone(timers, groups);
    return Some(groups);
  }

  /**
   * A single timer in category "constructor": the reduce as written throws,
   * while the intended grouping lists "constructor" with that timer in it.
   */
  lemma ConstructorCategoryThrows(t: Timer)
    requires t.category == "constructor"
    ensures HitsInheritedName([t])
    ensures CategorySet([t]) == {"constructor"} && Group([t], "constructor") == [t]
  {
    assert [t][0].category in ObjectPrototypeNames;
    assert [t][..0] == [];
  }

  /** `Object.keys(categorizedTimers)`: every key once, in some order. */
  method Categories(groups: map<string, seq<Timer>>) returns (categories: seq<string>)
    ensures forall c :: c in categories <==> c in groups
    ensures forall k, l :: 0 <= k < l < |categories| ==> categories[k] != categories[l]
    ensures |categories| == |groups.Keys|
  {
    categories := [];
    var rest := groups.Keys;
    while rest != {}
      invariant rest !! set c | c in categories
      invariant forall c :: c in groups <==> c in rest || c in categories
      invariant forall k, l :: 0 <= k < l < |categories| ==> categories[k] != categories[l]
      invariant |categories| + |rest| == |groups.Keys|
      decreases |rest|
    {
      var c :| c in rest;
      categories := categories + [c];
      rest := rest - {c};
    }
  }

  /**
   * The number shown next to a category, the length of its list; when that
   * list is the category's group over `timers`, the number of timers
   * holding the category.
   */
  function CategoryCount(ghost timers: seq<Timer>, groups: map<string, seq<Timer>>, c: string): (r: nat)
    requires c in groups
    ensures groups[c] == Group(timers, c) ==> r == Occurrences(timers, c)
  {
    GroupFollowsIndices(timers, c);
    |groups[c]|
  }

  /**
   * The screen as a whole: each listed category's count is the number of
   * timers holding it, and the counts add up to the number of timers.
   */
  method CategoryCounts(timers: seq<Timer>) returns (categories: seq<string>, counts: seq<nat>)
    ensures forall c :: c in categories <==> c in CategorySet(timers)
    ensures forall k, l :: 0 <= k < l < |categories| ==> categories[k] != categories[l]
    ensures |counts| == |categories|
    ensures forall k :: 0 <= k < |counts| ==> counts[k] == Occurrences(timers, categories[k])
    ensures SumSizes(timers, categories) == |timers|
    ensures SumOf(counts) == |timers|
  {
    var groups := Categorize(timers);
    categories := Categories(groups);
    counts := CountsOf(timers, groups, categories);
    forall t | t in timers
      ensures t.category in categories
    {
      assert t.category in CategorySet(timers);
    }
    SumSizesCovers(timers, categories);
    CountsAddUp(timers, categories, counts);
  }

  /** The sum of a list of counts. */
  function SumOf(counts: seq<nat>): nat {
    if counts == [] then 0 else counts[0] + SumOf(counts[1..])
  }

  /** Counts that are the numbers of timers per category add up as the group sizes do. */
  lemma {:induction false} CountsAddUp(timers: seq<Timer>, cats: seq<string>, counts: seq<nat>)
    requires |counts| == |cats|
    requires forall k :: 0 <= k < |counts| ==> counts[k] == Occurrences(timers, cats[k])
    ensures SumOf(counts) == SumSizes(timers, cats)
    decreases |cats|
  {
    if cats != [] {
      GroupFollowsIndices(timers, cats[0]);
      CountsAddUp(timers, cats[1..], counts[1..]);
    }
  }

  /** The count next to each listed category, looked up in the groups. */
  method CountsOf(timers: seq<Timer>, groups: map<string, seq<Timer>>, categories: seq<string>) returns (counts: seq<nat>)
    requires forall c :: c in groups ==> groups[c] == Group(timers, c)
    requires forall c :: c in categories ==> c in groups
    ensures |counts| == |categories|
    ensures forall k :: 0 <= k < |counts| ==> counts[k] == Occurrences(timers, categories[k])
  {
    counts := [];
    var k := 0;
    while k < |categories|
      invariant 0 <= k <= |categories| && |counts| == k
      invariant forall j :: 0 <= j < k ==> counts[j] == Occurrences(timers, categories[j])
    {
      var n := CategoryCount(timers, groups, categories[k]);
      counts := counts + [n];
      k := k + 1;
    }
  }
}
