/** The collection idioms the dashboard is built from: `reduce` sums and maxima,
    `filter`, grouping into an object keyed by a string (whose values come out in
    first-insertion order), the `forEach` loop that fills such an object, and the
    stable `Array.prototype.sort`. */
module Collections {

  import opened JsValue

  // ---------------------------------------------------------------------
  // Sums and maxima

  /** Σ f(x), added left to right as `reduce((acc, x) => acc + f(x), 0)`. */
  function Sum<T>(xs: seq<T>, f: T -> real): real
    decreases |xs|
  {
    if |xs| == 0 then 0.0 else Sum(xs[..|xs| - 1], f) + f(xs[|xs| - 1])
  }

  lemma {:induction false} SumAppend<T>(xs: seq<T>, ys: seq<T>, f: T -> real)
    ensures Sum(xs + ys, f) == Sum(xs, f) + Sum(ys, f)
    decreases |ys|
  {
    if |ys| > 0 {
      assert (xs + ys)[..|xs + ys| - 1] == xs + ys[..|ys| - 1];
      SumAppend(xs, ys[..|ys| - 1], f);
    } else {
      assert xs + ys == xs;
    }
  }

  /** Summing terms that are each f(x) / k gives Σ f(x) / k. */
  lemma {:induction false} SumScaled<T>(xs: seq<T>, f: T -> real, g: T -> real, k: real)
    requires k != 0.0 && forall x :: g(x) == f(x) / k
    ensures Sum(xs, g) == Sum(xs, f) / k
    decreases |xs|
  {
    if |xs| > 0 {
      SumScaled(xs[..|xs| - 1], f, g, k);
    }
  }

  /** The arithmetic mean of f over a nonempty sequence. */
  function Mean<T>(xs: seq<T>, f: T -> real): real
    requires |xs| > 0
  {
    Sum(xs, f) / |xs| as real
  }

  /** Summing the same k per element gives k times the count. */
  lemma {:induction false} SumConstant<T>(xs: seq<T>, f: T -> real, k: real)
    requires forall x :: f(x) == k
    ensures Sum(xs, f) == k * |xs| as real
    decreases |xs|
  {
    if |xs| > 0 {
      SumConstant(xs[..|xs| - 1], f, k);
    }
  }

  /** Σ f(x) over JavaScript numbers: a single NaN term makes the sum NaN. */
  function JsSum<T>(xs: seq<T>, f: T -> JsNum): JsNum
    decreases |xs|
  {
    if |xs| == 0 then Fin(0.0) else Add(JsSum(xs[..|xs| - 1], f), f(xs[|xs| - 1]))
  }

  /** A JavaScript sum is NaN exactly when some term is, and otherwise it is the sum
      of the terms. */
  lemma {:induction false} JsSumValue<T>(xs: seq<T>, f: T -> JsNum, g: T -> real)
    requires forall x :: g(x) == OrZero(f(x))
    ensures JsSum(xs, f).NaN? <==> exists i :: 0 <= i < |xs| && f(xs[i]).NaN?
    ensures JsSum(xs, f).Fin? ==> JsSum(xs, f).v == Sum(xs, g)
    decreases |xs|
  {
    if |xs| > 0 {
      var p := xs[..|xs| - 1];
      JsSumValue(p, f, g);
      assert forall i :: 0 <= i < |p| ==> p[i] == xs[i];
    }
  }

  /** The largest f(x), starting from `start`, as a chain of `Math.max(acc, f(x))`. */
  function MaxFrom<T>(xs: seq<T>, f: T -> real, start: real): real
    decreases |xs|
  {
    if |xs| == 0 then start
    else
      var m := MaxFrom(xs[..|xs| - 1], f, start);
      if f(xs[|xs| - 1]) > m then f(xs[|xs| - 1]) else m
  }

  /** MaxFrom is an upper bound of start and of every term, and is one of them. */
  lemma {:induction false} MaxFromIsMax<T>(xs: seq<T>, f: T -> real, start: real)
    ensures start <= MaxFrom(xs, f, start)
    ensures forall i :: 0 <= i < |xs| ==> f(xs[i]) <= MaxFrom(xs, f, start)
    ensures MaxFrom(xs, f, start) == start ||
            exists i :: 0 <= i < |xs| && MaxFrom(xs, f, start) == f(xs[i])
    decreases |xs|
  {
    if |xs| > 0 {
      var p := xs[..|xs| - 1];
      MaxFromIsMax(p, f, start);
      assert forall i :: 0 <= i < |p| ==> p[i] == xs[i];
    }
  }

  /** `Math.max(...xs.map(f))` for a non-empty list. */
  function Max<T>(xs: seq<T>, f: T -> real): real
    requires |xs| > 0
  {
    MaxFrom(xs[1..], f, f(xs[0]))
  }

  lemma MaxIsMax<T>(xs: seq<T>, f: T -> real)
    requires |xs| > 0
    ensures forall i :: 0 <= i < |xs| ==> f(xs[i]) <= Max(xs, f)
    ensures exists i :: 0 <= i < |xs| && Max(xs, f) == f(xs[i])
  {
    MaxFromIsMax(xs[1..], f, f(xs[0]));
    assert forall i :: 1 <= i < |xs| ==> xs[1..][i - 1] == xs[i];
    if Max(xs, f) != f(xs[0]) {
      var i :| 0 <= i < |xs[1..]| && Max(xs, f) == f(xs[1..][i]);
      assert xs[1..][i] == xs[i + 1];
    }
  }

  // ---------------------------------------------------------------------
  // Filtering

  /** `xs.filter(p)`. */
  function Filter<T>(xs: seq<T>, p: T -> bool): (r: seq<T>)
    ensures |r| <= |xs|
    decreases |xs|
  {
    if |xs| == 0 then []
    else if p(xs[|xs| - 1]) then Filter(xs[..|xs| - 1], p) + [xs[|xs| - 1]]
    else Filter(xs[..|xs| - 1], p)
  }

  /** Filtering is order-preserving: it distributes over concatenation and keeps a
      single element exactly when the predicate holds. */
  lemma {:induction false} FilterAppend<T>(xs: seq<T>, ys: seq<T>, p: T -> bool)
    ensures Filter(xs + ys, p) == Filter(xs, p) + Filter(ys, p)
    decreases |ys|
  {
    if |ys| > 0 {
      assert (xs + ys)[..|xs + ys| - 1] == xs + ys[..|ys| - 1];
      FilterAppend(xs, ys[..|ys| - 1], p);
    } else {
      assert xs + ys == xs;
    }
  }

  lemma {:induction false} FilterMembers<T>(xs: seq<T>, p: T -> bool)
    ensures forall x :: x in Filter(xs, p) <==> x in xs && p(x)
    decreases |xs|
  {
    if |xs| > 0 {
      FilterMembers(xs[..|xs| - 1], p);
      assert xs == xs[..|xs| - 1] + [xs[|xs| - 1]];
    }
  }

  /** Two filters in a row keep what both predicates keep, in either order. */
  lemma {:induction false} FilterFilter<T>(xs: seq<T>, p: T -> bool, q: T -> bool)
    ensures Filter(Filter(xs, p), q) == Filter(xs, x => p(x) && q(x))
    ensures Filter(Filter(xs, p), q) == Filter(Filter(xs, q), p)
    decreases |xs|
  {
    if |xs| > 0 {
      FilterFilter(xs[..|xs| - 1], p, q);
      var last := xs[|xs| - 1];
      var fp := Filter(xs[..|xs| - 1], p);
      var fq := Filter(xs[..|xs| - 1], q);
      if p(last) {
        assert (fp + [last])[..|fp + [last]| - 1] == fp;
      }
      if q(last) {
        assert (fq + [last])[..|fq + [last]| - 1] == fq;
      }
    }
  }

  /** Filters with predicates that agree everywhere keep the same elements. */
  lemma {:induction false} FilterSame<T>(xs: seq<T>, p: T -> bool, q: T -> bool)
    requires forall x :: p(x) == q(x)
    ensures Filter(xs, p) == Filter(xs, q)
    decreases |xs|
  {
    if |xs| > 0 {
      FilterSame(xs[..|xs| - 1], p, q);
    }
  }

  /** Filtering on "the key is k" gives the elements with key k. */
  lemma {:induction false} FilterByKey<K, T>(xs: seq<T>, p: T -> bool, key: T -> K, k: K)
    requires forall x :: p(x) == (key(x) == k)
    ensures Filter(xs, p) == Matching(xs, key, k)
    decreases |xs|
  {
    if |xs| > 0 {
      FilterByKey(xs[..|xs| - 1], p, key, k);
    }
  }

  /** `xs.map((x, i) => f(x, i)).filter(y => y !== null)`: the results that exist,
      each computed with its position in `xs`, in order. */
  function Survivors<T, U>(xs: seq<T>, f: (T, nat) -> Option<U>): (r: seq<U>)
    ensures |r| <= |xs|
    decreases |xs|
  {
    if |xs| == 0 then []
    else
      var p := xs[..|xs| - 1];
      match f(xs[|xs| - 1], |p|)
      case None => Survivors(p, f)
      case Some(y) => Survivors(p, f) + [y]
  }

  /** The positions whose result exists, in increasing order. */
  function SurvivorPositions<T, U>(xs: seq<T>, f: (T, nat) -> Option<U>): seq<nat>
    decreases |xs|
  {
    if |xs| == 0 then []
    else
      var p := xs[..|xs| - 1];
      if f(xs[|xs| - 1], |p|).Some? then SurvivorPositions(p, f) + [|p|] else SurvivorPositions(p, f)
  }

  /** There is one surviving position per survivor; the positions are in range and
      increase. */
  lemma {:induction false} SurvivorPositionsBounds<T, U>(xs: seq<T>, f: (T, nat) -> Option<U>)
    ensures |SurvivorPositions(xs, f)| == |Survivors(xs, f)|
    ensures forall i :: 0 <= i < |SurvivorPositions(xs, f)| ==> SurvivorPositions(xs, f)[i] < |xs|
    ensures forall i, j :: 0 <= i < j < |SurvivorPositions(xs, f)| ==>
      SurvivorPositions(xs, f)[i] < SurvivorPositions(xs, f)[j]
    decreases |xs|
  {
    if |xs| > 0 {
      SurvivorPositionsBounds(xs[..|xs| - 1], f);
    }
  }

  /** The i-th survivor is the result at the i-th surviving position. */
  lemma {:induction false} SurvivorsAtPositions<T, U>(xs: seq<T>, f: (T, nat) -> Option<U>, i: nat)
    requires i < |SurvivorPositions(xs, f)|
    ensures SurvivorPositions(xs, f)[i] < |xs| && i < |Survivors(xs, f)| &&
      f(xs[SurvivorPositions(xs, f)[i]], SurvivorPositions(xs, f)[i]) == Some(Survivors(xs, f)[i])
    decreases |xs|
  {
    SurvivorPositionsBounds(xs, f);
    var p := xs[..|xs| - 1];
    SurvivorPositionsBounds(p, f);
    if i < |SurvivorPositions(p, f)| {
      SurvivorsAtPositions(p, f, i);
      assert xs[SurvivorPositions(p, f)[i]] == p[SurvivorPositions(p, f)[i]];
    }
  }

  /** A position that is not a surviving one has no result. */
  lemma {:induction false} NonSurvivorsDropped<T, U>(xs: seq<T>, f: (T, nat) -> Option<U>, k: nat)
    requires k < |xs| && k !in SurvivorPositions(xs, f)
    ensures f(xs[k], k).None?
    decreases |xs|
  {
    var p := xs[..|xs| - 1];
    if k < |p| {
      NonSurvivorsDropped(p, f, k);
      assert xs[k] == p[k];
    }
  }

  /** The elements of xs with key k, in order. */
  function Matching<K(==), T>(xs: seq<T>, key: T -> K, k: K): seq<T>
    decreases |xs|
  {
    if |xs| == 0 then []
    else if key(xs[|xs| - 1]) == k then Matching(xs[..|xs| - 1], key, k) + [xs[|xs| - 1]]
    else Matching(xs[..|xs| - 1], key, k)
  }

  lemma {:induction false} MatchingMembers<K, T>(xs: seq<T>, key: T -> K, k: K)
    ensures forall x :: x in Matching(xs, key, k) <==> x in xs && key(x) == k
    ensures (exists x :: x in xs && key(x) == k) ==> |Matching(xs, key, k)| > 0
    decreases |xs|
  {
    if |xs| > 0 {
      MatchingMembers(xs[..|xs| - 1], key, k);
      assert xs == xs[..|xs| - 1] + [xs[|xs| - 1]];
    }
  }

  /** The first element is the first of the elements with its key. */
  lemma {:induction false} MatchingFirst<K, T>(xs: seq<T>, key: T -> K)
    requires |xs| > 0
    ensures |Matching(xs, key, key(xs[0]))| > 0 && Matching(xs, key, key(xs[0]))[0] == xs[0]
    decreases |xs|
  {
    if |xs| > 1 {
      var p := xs[..|xs| - 1];
      MatchingFirst(p, key);
      assert p[0] == xs[0];
    }
  }

  // ---------------------------------------------------------------------
  // Grouping

  /** One entry of an object keyed by group: the key and the elements filed under
      it, in the order they were pushed. */
  datatype Group<K, T> = Group(key: K, members: seq<T>)

  /** Files x under key k: appended to the group of k, or a new group at the end. */
  function AddTo<K(==), T>(gs: seq<Group<K, T>>, k: K, x: T): seq<Group<K, T>>
    decreases |gs|
  {
    if |gs| == 0 then [Group(k, [x])]
    else if gs[0].key == k then [Group(k, gs[0].members + [x])] + gs[1..]
    else [gs[0]] + AddTo(gs[1..], k, x)
  }

  /** The groups of xs by key, in order of first encounter. */
  function GroupBy<K(==), T>(xs: seq<T>, key: T -> K): seq<Group<K, T>>
    decreases |xs|
  {
    if |xs| == 0 then [] else AddTo(GroupBy(xs[..|xs| - 1], key), key(xs[|xs| - 1]), xs[|xs| - 1])
  }

  predicate DistinctKeys<K(==), T>(gs: seq<Group<K, T>>)
  {
    forall i, j :: 0 <= i < j < |gs| ==> gs[i].key != gs[j].key
  }

  lemma {:induction false} AddToExisting<K, T>(gs: seq<Group<K, T>>, k: K, x: T, i: nat)
    requires DistinctKeys(gs) && i < |gs| && gs[i].key == k
    ensures AddTo(gs, k, x) == gs[i := Group(k, gs[i].members + [x])]
    decreases |gs|
  {
    if i > 0 {
      AddToExisting(gs[1..], k, x, i - 1);
    }
  }

  lemma {:induction false} AddToNew<K, T>(gs: seq<Group<K, T>>, k: K, x: T)
    requires forall i :: 0 <= i < |gs| ==> gs[i].key != k
    ensures AddTo(gs, k, x) == gs + [Group(k, [x])]
    decreases |gs|
  {
    if |gs| > 0 {
      AddToNew(gs[1..], k, x);
    }
  }

  lemma GroupByLast<K, T>(xs: seq<T>, x: T, key: T -> K)
    ensures GroupBy(xs + [x], key) == AddTo(GroupBy(xs, key), key(x), x)
  {
    assert (xs + [x])[..|xs|] == xs;
  }

  lemma MatchingLast<K, T>(p: seq<T>, x: T, key: T -> K, k: K)
    ensures Matching(p + [x], key, k) ==
      if key(x) == k then Matching(p, key, k) + [x] else Matching(p, key, k)
  {
    assert (p + [x])[..|p|] == p;
  }

  lemma {:induction false} MatchingElement<K, T>(xs: seq<T>, key: T -> K, k: K, i: nat)
    requires i < |Matching(xs, key, k)|
    ensures Matching(xs, key, k)[i] in xs && key(Matching(xs, key, k)[i]) == k
    decreases |xs|
  {
    var p := xs[..|xs| - 1];
    assert forall y :: y in p ==> y in xs;
    if i < |Matching(p, key, k)| {
      MatchingElement(p, key, k, i);
    }
  }

  lemma {:induction false} MatchingNone<K, T>(xs: seq<T>, key: T -> K, k: K)
    requires forall y :: y in xs ==> key(y) != k
    ensures Matching(xs, key, k) == []
    decreases |xs|
  {
    if |xs| > 0 {
      assert xs[|xs| - 1] in xs;
      assert forall y :: y in xs[..|xs| - 1] ==> y in xs;
      MatchingNone(xs[..|xs| - 1], key, k);
    }
  }

  /** Some group of gs has key k. */
  ghost predicate HasKey<K, T>(gs: seq<Group<K, T>>, k: K)
  {
    exists i :: 0 <= i < |gs| && gs[i].key == k
  }

  /** gs splits xs by key: distinct keys, each group exactly the elements with its
      key, in order, and not empty, and a group for every element. */
  ghost predicate Partitions<K, T>(xs: seq<T>, key: T -> K, gs: seq<Group<K, T>>)
  {
    && DistinctKeys(gs)
    && (forall i :: 0 <= i < |gs| ==>
          gs[i].members == Matching(xs, key, gs[i].key) && |gs[i].members| > 0)
    && (forall x :: x in xs ==> HasKey(gs, key(x)))
  }

  /** GroupBy splits its input into groups by key. */
  lemma {:induction false} GroupByPartition<K, T>(xs: seq<T>, key: T -> K)
    ensures Partitions(xs, key, GroupBy(xs, key))
    decreases |xs|
  {
    if |xs| > 0 {
      var p, x := xs[..|xs| - 1], xs[|xs| - 1];
      assert xs == p + [x];
      GroupByPartition(p, key);
      GroupByLast(p, x, key);
      var gs := GroupBy(p, key);
      if i :| 0 <= i < |gs| && gs[i].key == key(x) {
        PartitionsExisting(p, x, key, gs, i);
      } else {
        PartitionsNew(p, x, key, gs);
      }
    }
  }

  /** Filing one more element under a key that has a group keeps a partition. */
  lemma PartitionsExisting<K, T>(p: seq<T>, x: T, key: T -> K, gs: seq<Group<K, T>>, i: nat)
    requires Partitions(p, key, gs) && i < |gs| && gs[i].key == key(x)
    ensures Partitions(p + [x], key, AddTo(gs, key(x), x))
  {
    AddToExisting(gs, key(x), x, i);
    ExistingGroupMembers(p, x, key, gs, i);
    ExistingGroupCovers(p, x, key, gs, i);
  }

  lemma ExistingGroupMembers<K, T>(p: seq<T>, x: T, key: T -> K, gs: seq<Group<K, T>>, i: nat)
    requires Partitions(p, key, gs) && i < |gs| && gs[i].key == key(x)
    ensures var gs' := gs[i := Group(key(x), gs[i].members + [x])];
      forall a :: 0 <= a < |gs'| ==>
        gs'[a].members == Matching(p + [x], key, gs'[a].key) && |gs'[a].members| > 0
  {
    var gs' := gs[i := Group(key(x), gs[i].members + [x])];
    forall a | 0 <= a < |gs'|
      ensures gs'[a].members == Matching(p + [x], key, gs'[a].key) && |gs'[a].members| > 0
    {
      MatchingLast(p, x, key, gs'[a].key);
      if a != i {
        assert gs'[a] == gs[a] && gs[a].key != key(x);
      }
    }
  }

  lemma ExistingGroupCovers<K, T>(p: seq<T>, x: T, key: T -> K, gs: seq<Group<K, T>>, i: nat)
    requires (forall y :: y in p ==> HasKey(gs, key(y))) && i < |gs| && gs[i].key == key(x)
    ensures forall y :: y in p + [x] ==> HasKey(gs[i := Group(key(x), gs[i].members + [x])], key(y))
  {
    var gs' := gs[i := Group(key(x), gs[i].members + [x])];
    forall y | y in p + [x] ensures HasKey(gs', key(y)) {
      if y in p {
        var a :| 0 <= a < |gs| && gs[a].key == key(y);
        assert gs'[a].key == key(y);
      } else {
        assert gs'[i].key == key(y);
      }
    }
  }

  /** Filing one more element under a new key keeps a partition. */
  lemma PartitionsNew<K, T>(p: seq<T>, x: T, key: T -> K, gs: seq<Group<K, T>>)
    requires Partitions(p, key, gs) && forall i :: 0 <= i < |gs| ==> gs[i].key != key(x)
    ensures Partitions(p + [x], key, AddTo(gs, key(x), x))
  {
    AddToNew(gs, key(x), x);
    NewGroupMembers(p, x, key, gs);
    NewGroupCovers(p, x, key, gs);
  }

  lemma NewGroupMembers<K, T>(p: seq<T>, x: T, key: T -> K, gs: seq<Group<K, T>>)
    requires Partitions(p, key, gs) && forall i :: 0 <= i < |gs| ==> gs[i].key != key(x)
    ensures var gs' := gs + [Group(key(x), [x])];
      forall a :: 0 <= a < |gs'| ==>
        gs'[a].members == Matching(p + [x], key, gs'[a].key) && |gs'[a].members| > 0
  {
    var xs, k, gs' := p + [x], key(x), gs + [Group(key(x), [x])];
    forall y | y in p ensures key(y) != k {
      assert HasKey(gs, key(y));
    }
    MatchingNone(p, key, k);
    forall a | 0 <= a < |gs'|
      ensures gs'[a].members == Matching(xs, key, gs'[a].key) && |gs'[a].members| > 0
    {
      MatchingLast(p, x, key, gs'[a].key);
      if a < |gs| {
        assert gs'[a] == gs[a] && gs[a].key != k;
      } else {
        assert gs'[a] == Group(k, [x]);
      }
    }
  }

  lemma NewGroupCovers<K, T>(p: seq<T>, x: T, key: T -> K, gs: seq<Group<K, T>>)
    requires forall y :: y in p ==> HasKey(gs, key(y))
    ensures forall y :: y in p + [x] ==> HasKey(gs + [Group(key(x), [x])], key(y))
  {
    var gs' := gs + [Group(key(x), [x])];
    forall y | y in p + [x] ensures HasKey(gs', key(y)) {
      if y in p {
        var a :| 0 <= a < |gs| && gs[a].key == key(y);
        assert gs'[a].key == key(y);
      } else {
        assert gs'[|gs|].key == key(y);
      }
    }
  }

  /** Every member of a group is an element of xs with the group's key. */
  lemma GroupMember<K, T>(xs: seq<T>, key: T -> K, i: nat, j: nat)
    requires i < |GroupBy(xs, key)| && j < |GroupBy(xs, key)[i].members|
    ensures GroupBy(xs, key)[i].members[j] in xs
    ensures key(GroupBy(xs, key)[i].members[j]) == GroupBy(xs, key)[i].key
  {
    GroupByPartition(xs, key);
    MatchingElement(xs, key, GroupBy(xs, key)[i].key, j);
  }

  /** Index of the first element of xs with key k, or |xs| when there is none. */
  function FirstIndex<K(==), T>(xs: seq<T>, key: T -> K, k: K): (i: nat)
    ensures i <= |xs|
    ensures i < |xs| ==> key(xs[i]) == k
    ensures forall j :: 0 <= j < i ==> key(xs[j]) != k
    decreases |xs|
  {
    if |xs| == 0 then 0
    else if key(xs[0]) == k then 0
    else
      var i := FirstIndex(xs[1..], key, k);
      assert forall j :: 0 < j < |xs| ==> xs[j] == xs[1..][j - 1];
      1 + i
  }

  /** A key that occurs has its first index inside the sequence. */
  lemma FirstIndexFound<K, T>(xs: seq<T>, key: T -> K, k: K)
    requires exists x :: x in xs && key(x) == k
    ensures FirstIndex(xs, key, k) < |xs|
  {
    var x :| x in xs && key(x) == k;
    var j :| 0 <= j < |xs| && xs[j] == x;
  }

  lemma FirstIndexPrefix<K, T>(xs: seq<T>, ys: seq<T>, key: T -> K, k: K)
    requires exists x :: x in xs && key(x) == k
    ensures FirstIndex(xs + ys, key, k) == FirstIndex(xs, key, k) < |xs|
  {
    var x :| x in xs && key(x) == k;
    var t :| 0 <= t < |xs| && xs[t] == x;
    assert forall t :: 0 <= t < |xs| ==> (xs + ys)[t] == xs[t];
  }

  /** Every group's key is the key of some element. */
  ghost predicate KeysOccur<K, T>(xs: seq<T>, key: T -> K, gs: seq<Group<K, T>>)
  {
    forall i :: 0 <= i < |gs| ==> exists x :: x in xs && key(x) == gs[i].key
  }

  lemma GroupByKeysOccur<K, T>(xs: seq<T>, key: T -> K)
    ensures KeysOccur(xs, key, GroupBy(xs, key))
  {
    GroupByPartition(xs, key);
    var gs := GroupBy(xs, key);
    forall i | 0 <= i < |gs| ensures exists x :: x in xs && key(x) == gs[i].key {
      MatchingMembers(xs, key, gs[i].key);
      assert gs[i].members == Matching(xs, key, gs[i].key);
      MatchingElement(xs, key, gs[i].key, 0);
    }
  }

  /** The groups of gs come in the order their keys first occur in xs. */
  ghost predicate FirstEncounterOrder<K, T>(xs: seq<T>, key: T -> K, gs: seq<Group<K, T>>)
  {
    forall i, j :: 0 <= i < j < |gs| ==>
      FirstIndex(xs, key, gs[i].key) < FirstIndex(xs, key, gs[j].key)
  }

  lemma FirstEncounterExisting<K, T>(p: seq<T>, x: T, key: T -> K, gp: seq<Group<K, T>>, i: nat)
    requires KeysOccur(p, key, gp) && FirstEncounterOrder(p, key, gp) && DistinctKeys(gp)
    requires i < |gp| && gp[i].key == key(x)
    ensures FirstEncounterOrder(p + [x], key, AddTo(gp, key(x), x))
  {
    AddToExisting(gp, key(x), x, i);
    var gs := AddTo(gp, key(x), x);
    forall a | 0 <= a < |gp|
      ensures gs[a].key == gp[a].key
      ensures FirstIndex(p + [x], key, gp[a].key) == FirstIndex(p, key, gp[a].key)
    {
      FirstIndexPrefix(p, [x], key, gp[a].key);
    }
  }

  lemma FirstIndexLast<K, T>(p: seq<T>, x: T, key: T -> K)
    requires forall y :: y in p ==> key(y) != key(x)
    ensures FirstIndex(p + [x], key, key(x)) == |p|
  {
    assert forall t :: 0 <= t < |p| ==> (p + [x])[t] == p[t] && p[t] in p;
    assert (p + [x])[|p|] == x;
  }

  lemma FirstEncounterNew<K, T>(p: seq<T>, x: T, key: T -> K, gp: seq<Group<K, T>>)
    requires KeysOccur(p, key, gp) && FirstEncounterOrder(p, key, gp)
    requires forall y :: y in p ==> key(y) != key(x)
    requires forall a :: 0 <= a < |gp| ==> gp[a].key != key(x)
    ensures FirstEncounterOrder(p + [x], key, AddTo(gp, key(x), x))
  {
    AddToNew(gp, key(x), x);
    var gs := AddTo(gp, key(x), x);
    forall a | 0 <= a < |gp|
      ensures FirstIndex(p + [x], key, gp[a].key) == FirstIndex(p, key, gp[a].key) < |p|
    {
      FirstIndexPrefix(p, [x], key, gp[a].key);
    }
    FirstIndexLast(p, x, key);
    forall a, b | 0 <= a < b < |gs|
      ensures FirstIndex(p + [x], key, gs[a].key) < FirstIndex(p + [x], key, gs[b].key)
    {
      assert gs[a] == gp[a];
      if b < |gp| {
        assert gs[b] == gp[b];
      }
    }
  }

  /** Every group's key occurs in xs, and groups come in the order their keys
      first occur in xs. */
  lemma {:induction false} GroupByFirstEncounter<K, T>(xs: seq<T>, key: T -> K)
    ensures KeysOccur(xs, key, GroupBy(xs, key))
    ensures forall i, j :: 0 <= i < j < |GroupBy(xs, key)| ==>
      FirstIndex(xs, key, GroupBy(xs, key)[i].key) < FirstIndex(xs, key, GroupBy(xs, key)[j].key)
    decreases |xs|
  {
    GroupByKeysOccur(xs, key);
    if |xs| > 0 {
      var p, x := xs[..|xs| - 1], xs[|xs| - 1];
      assert xs == p + [x];
      GroupByFirstEncounter(p, key);
      GroupByKeysOccur(p, key);
      GroupByPartition(p, key);
      var gp := GroupBy(p, key);
      if i :| 0 <= i < |gp| && gp[i].key == key(x) {
        FirstEncounterExisting(p, x, key, gp, i);
      } else {
        forall y | y in p ensures key(y) != key(x) {
          assert HasKey(gp, key(y));
        }
        FirstEncounterNew(p, x, key, gp);
      }
    }
  }

  /** Summing over the groups' members sums over all of xs once: the group
      sizes add up to |xs| and group sums add up to the total. */
  function GroupSum<K, T>(gs: seq<Group<K, T>>, f: T -> real): real
    decreases |gs|
  {
    if |gs| == 0 then 0.0 else GroupSum(gs[..|gs| - 1], f) + Sum(gs[|gs| - 1].members, f)
  }

  lemma {:induction false} GroupSumAddTo<K, T>(gs: seq<Group<K, T>>, k: K, x: T, f: T -> real)
    ensures GroupSum(AddTo(gs, k, x), f) == GroupSum(gs, f) + f(x)
    decreases |gs|
  {
    if |gs| > 0 {
      GroupSumAddTo(gs[1..], k, x, f);
      GroupSumFront(gs, f);
      var a := AddTo(gs, k, x);
      GroupSumFront(a, f);
      if gs[0].key == k {
        assert a[1..] == gs[1..];
        assert Sum(gs[0].members + [x], f) == Sum(gs[0].members, f) + f(x) by {
          assert (gs[0].members + [x])[..|gs[0].members|] == gs[0].members;
        }
      } else {
        assert a[1..] == AddTo(gs[1..], k, x);
      }
    } else {
      assert Sum([x], f) == Sum([x][..0], f) + f(x);
    }
  }

  lemma {:induction false} GroupSumFront<K, T>(gs: seq<Group<K, T>>, f: T -> real)
    requires |gs| > 0
    ensures GroupSum(gs, f) == Sum(gs[0].members, f) + GroupSum(gs[1..], f)
    decreases |gs|
  {
    if |gs| > 1 {
      GroupSumFront(gs[..|gs| - 1], f);
      assert gs[..|gs| - 1][1..] == gs[1..][..|gs[1..]| - 1];
    }
  }

  lemma {:induction false} GroupBySum<K, T>(xs: seq<T>, key: T -> K, f: T -> real)
    ensures GroupSum(GroupBy(xs, key), f) == Sum(xs, f)
    decreases |xs|
  {
    if |xs| > 0 {
      GroupBySum(xs[..|xs| - 1], key, f);
      GroupSumAddTo(GroupBy(xs[..|xs| - 1], key), key(xs[|xs| - 1]), xs[|xs| - 1], f);
    }
  }

  // ---------------------------------------------------------------------
  // The forEach loop that fills an object of accumulators

  /** `xs` folded left to right into `a` with `add`. */
  function Fold<T, A>(xs: seq<T>, a: A, add: (A, T) -> A): A
    decreases |xs|
  {
    if |xs| == 0 then a else add(Fold(xs[..|xs| - 1], a, add), xs[|xs| - 1])
  }

  /** Every group has at least one member. */
  ghost predicate NonEmptyGroups<K, T>(gs: seq<Group<K, T>>)
  {
    forall i :: 0 <= i < |gs| ==> |gs[i].members| > 0
  }

  lemma GroupByNonEmpty<K, T>(xs: seq<T>, key: T -> K)
    ensures NonEmptyGroups(GroupBy(xs, key))
  {
    GroupByPartition(xs, key);
  }

  /** For each group: its key, and its members folded into the accumulator that
      `start` makes from the first of them. */
  function Accumulated<K, T, A>(gs: seq<Group<K, T>>, start: T -> A, add: (A, T) -> A): (r: seq<(K, A)>)
    requires NonEmptyGroups(gs)
    ensures |r| == |gs|
    ensures forall i :: 0 <= i < |gs| ==>
      r[i] == (gs[i].key, Fold(gs[i].members, start(gs[i].members[0]), add))
  {
    seq(|gs|, i requires 0 <= i < |gs| => (gs[i].key, Fold(gs[i].members, start(gs[i].members[0]), add)))
  }

  lemma FoldLast<T, A>(xs: seq<T>, x: T, a: A, add: (A, T) -> A)
    ensures Fold(xs + [x], a, add) == add(Fold(xs, a, add), x)
  {
    assert (xs + [x])[..|xs|] == xs;
  }

  /** The state of the grouping loop: `accs` holds, for each group of gs in order,
      its key and its accumulator, and `index` maps each key to its slot. */
  ghost predicate Tracks<K, T, A>(accs: seq<(K, A)>, index: map<K, nat>, gs: seq<Group<K, T>>,
                                  start: T -> A, add: (A, T) -> A)
  {
    && |accs| == |gs|
    && DistinctKeys(gs)
    && NonEmptyGroups(gs)
    && (forall j :: 0 <= j < |gs| ==>
          accs[j] == (gs[j].key, Fold(gs[j].members, start(gs[j].members[0]), add)))
    && (forall j :: 0 <= j < |gs| ==> gs[j].key in index)
    && (forall k :: k in index ==> index[k] < |gs| && gs[index[k]].key == k)
  }

  lemma TracksExisting<K, T, A>(accs: seq<(K, A)>, index: map<K, nat>, gs: seq<Group<K, T>>,
                                start: T -> A, add: (A, T) -> A, k: K, x: T)
    requires Tracks(accs, index, gs, start, add) && k in index
    ensures Tracks(accs[index[k] := (k, add(accs[index[k]].1, x))], index, AddTo(gs, k, x), start, add)
  {
    var j := index[k];
    AddToExisting(gs, k, x, j);
    FoldLast(gs[j].members, x, start(gs[j].members[0]), add);
    assert (gs[j].members + [x])[0] == gs[j].members[0];
  }

  lemma TracksNew<K, T, A>(accs: seq<(K, A)>, index: map<K, nat>, gs: seq<Group<K, T>>,
                           start: T -> A, add: (A, T) -> A, k: K, x: T)
    requires Tracks(accs, index, gs, start, add) && k !in index
    ensures Tracks(accs + [(k, add(start(x), x))], index[k := |accs|], AddTo(gs, k, x), start, add)
  {
    AddToNew(gs, k, x);
    FoldLast([], x, start(x), add);
    assert [] + [x] == [x];
  }

  /** `xs.forEach(x => { const k = key(x); if (!obj[k]) obj[k] = start(x); obj[k] = add(obj[k], x); })`
      followed by `Object.values(obj)`: one accumulator per group, in first-encounter order. */
  method GroupInto<K(==), T, A>(xs: seq<T>, key: T -> K, start: T -> A, add: (A, T) -> A)
    returns (accs: seq<(K, A)>)
    ensures NonEmptyGroups(GroupBy(xs, key))
    ensures accs == Accumulated(GroupBy(xs, key), start, add)
  {
    accs := [];
    var index: map<K, nat> := map[];
    for i := 0 to |xs|
      invariant Tracks(accs, index, GroupBy(xs[..i], key), start, add)
    {
      var x, k := xs[i], key(xs[i]);
      GroupByLast(xs[..i], x, key);
      assert xs[..i + 1] == xs[..i] + [x];
      if k in index {
        TracksExisting(accs, index, GroupBy(xs[..i], key), start, add, k, x);
        var j := index[k];
        accs := accs[j := (k, add(accs[j].1, x))];
      } else {
        TracksNew(accs, index, GroupBy(xs[..i], key), start, add, k, x);
        index := index[k := |accs|];
        accs := accs + [(k, add(start(x), x))];
      }
    }
    assert xs[..|xs|] == xs;
  }

  /** A sum over per-group results equals the sum over the groups' members when each
      result is its group's sum. */
  lemma {:induction false} SumOverGroups<K, T, U>(gs: seq<Group<K, T>>, ys: seq<U>, g: U -> real, f: T -> real)
    requires |ys| == |gs|
    requires forall i :: 0 <= i < |gs| ==> g(ys[i]) == Sum(gs[i].members, f)
    ensures Sum(ys, g) == GroupSum(gs, f)
    decreases |gs|
  {
    if |gs| > 0 {
      SumOverGroups(gs[..|gs| - 1], ys[..|ys| - 1], g, f);
    }
  }

  /** Per-group results each within `bound` of their group's sum add up to within
      the summed bounds of the sum over all the groups' members. */
  lemma {:induction false} SumOverGroupsWithin<K, T, U>(gs: seq<Group<K, T>>, ys: seq<U>, g: U -> real, f: T -> real, bound: U -> real)
    requires |ys| == |gs|
    requires forall i :: 0 <= i < |gs| ==> -bound(ys[i]) <= g(ys[i]) - Sum(gs[i].members, f) <= bound(ys[i])
    ensures -Sum(ys, bound) <= Sum(ys, g) - GroupSum(gs, f) <= Sum(ys, bound)
    decreases |gs|
  {
    if |gs| > 0 {
      SumOverGroupsWithin(gs[..|gs| - 1], ys[..|ys| - 1], g, f, bound);
    }
  }

  // ---------------------------------------------------------------------
  // Distinct values

  predicate Distinct<T(==)>(s: seq<T>)
  {
    forall i, j :: 0 <= i < j < |s| ==> s[i] != s[j]
  }

  /** `Array.from(new Set(xs))`: each value once, at its first occurrence. */
  function Dedup<T(==, !new)>(xs: seq<T>): (r: seq<T>)
    ensures forall x :: x in r <==> x in xs
    ensures Distinct(r)
    ensures |r| <= |xs| && (|xs| > 0 ==> |r| > 0)
    decreases |xs|
  {
    if |xs| == 0 then []
    else
      var p := Dedup(xs[..|xs| - 1]);
      assert forall i :: 0 <= i < |xs| - 1 ==> xs[..|xs| - 1][i] == xs[i];
      if xs[|xs| - 1] in p then p else p + [xs[|xs| - 1]]
  }

  lemma {:induction false} DistinctCount<T>(s: seq<T>, x: T)
    requires Distinct(s)
    ensures multiset(s)[x] <= 1
    decreases |s|
  {
    if |s| > 0 {
      var p := s[..|s| - 1];
      DistinctCount(p, x);
      assert s == p + [s[|s| - 1]];
      assert s[|s| - 1] !in p;
    }
  }

  /** A list without repeats has as many elements as its set of values. */
  lemma {:induction false} DistinctCard<T>(s: seq<T>)
    requires Distinct(s)
    ensures |set x | x in s| == |s|
    decreases |s|
  {
    if |s| > 0 {
      var p := s[..|s| - 1];
      DistinctCard(p);
      assert s == p + [s[|s| - 1]];
      assert (set x | x in s) == (set x | x in p) + {s[|s| - 1]};
      assert s[|s| - 1] !in p;
    }
  }

  /** A permutation of a list without repeats has none either. */
  lemma DistinctPerm<T>(a: seq<T>, b: seq<T>)
    requires multiset(a) == multiset(b) && Distinct(b)
    ensures Distinct(a)
  {
    forall i, j | 0 <= i < j < |a| ensures a[i] != a[j] {
      if a[i] == a[j] {
        assert a == a[..j] + [a[j]] + a[j + 1..];
        assert a[i] in multiset(a[..j]);
        DistinctCount(b, a[i]);
        assert false;
      }
    }
  }

  // ---------------------------------------------------------------------
  // Stable sorting

  /** Inserts x after every element it need not precede. */
  function InsertSorted<T>(s: seq<T>, x: T, lt: (T, T) -> bool): (r: seq<T>)
    ensures |r| == |s| + 1
    decreases |s|
  {
    if |s| == 0 then [x]
    else if lt(x, s[|s| - 1]) then InsertSorted(s[..|s| - 1], x, lt) + [s[|s| - 1]]
    else s + [x]
  }

  /** `xs.slice().sort(cmp)` with `lt(a, b)` meaning `cmp(a, b) < 0`: a stable
      insertion sort. */
  function SortBy<T>(xs: seq<T>, lt: (T, T) -> bool): (r: seq<T>)
    ensures |r| == |xs|
    decreases |xs|
  {
    if |xs| == 0 then [] else InsertSorted(SortBy(xs[..|xs| - 1], lt), xs[|xs| - 1], lt)
  }

  lemma {:induction false} InsertSortedPerm<T>(s: seq<T>, x: T, lt: (T, T) -> bool)
    ensures multiset(InsertSorted(s, x, lt)) == multiset(s) + multiset{x}
    decreases |s|
  {
    if |s| > 0 && lt(x, s[|s| - 1]) {
      InsertSortedPerm(s[..|s| - 1], x, lt);
      assert s == s[..|s| - 1] + [s[|s| - 1]];
    }
  }

  /** Sorting permutes: the result holds the same elements, as often. */
  lemma {:induction false} SortByPerm<T>(xs: seq<T>, lt: (T, T) -> bool)
    ensures multiset(SortBy(xs, lt)) == multiset(xs)
    decreases |xs|
  {
    if |xs| > 0 {
      SortByPerm(xs[..|xs| - 1], lt);
      InsertSortedPerm(SortBy(xs[..|xs| - 1], lt), xs[|xs| - 1], lt);
      assert xs == xs[..|xs| - 1] + [xs[|xs| - 1]];
    }
  }

  /** Sorting keeps exactly the elements it was given. */
  lemma SortByMembers<T>(xs: seq<T>, lt: (T, T) -> bool)
    ensures forall e :: e in SortBy(xs, lt) <==> e in xs
  {
    forall e ensures e in SortBy(xs, lt) <==> e in xs {
      SortByHas(xs, lt, e);
    }
  }

  lemma SortByHas<T>(xs: seq<T>, lt: (T, T) -> bool, e: T)
    ensures e in SortBy(xs, lt) <==> e in xs
  {
    SortByPerm(xs, lt);
    assert e in SortBy(xs, lt) <==> e in multiset(SortBy(xs, lt));
  }

  /** No element is placed after one that should precede it. */
  predicate SortedBy<T>(s: seq<T>, lt: (T, T) -> bool)
  {
    forall i, j :: 0 <= i < j < |s| ==> !lt(s[j], s[i])
  }

  /** `lt` is a strict weak order on the elements of xs: asymmetric, and "not
      before" is transitive. */
  predicate StrictWeakOn<T(==)>(xs: seq<T>, lt: (T, T) -> bool)
  {
    && (forall a, b :: a in xs && b in xs && lt(a, b) ==> !lt(b, a))
    && (forall a, b, c :: a in xs && b in xs && c in xs && !lt(a, b) && !lt(b, c) ==> !lt(a, c))
  }

  lemma {:induction false} InsertSortedSorted<T>(s: seq<T>, x: T, lt: (T, T) -> bool, xs: seq<T>)
    requires SortedBy(s, lt) && StrictWeakOn(xs, lt)
    requires x in xs && forall y :: y in s ==> y in xs
    ensures SortedBy(InsertSorted(s, x, lt), lt)
    ensures forall y :: y in InsertSorted(s, x, lt) ==> y == x || y in s
    decreases |s|
  {
    if |s| > 0 {
      var p, last := s[..|s| - 1], s[|s| - 1];
      assert forall y :: y in p ==> y in s;
      if lt(x, last) {
        InsertSortedSorted(p, x, lt, xs);
        var r := InsertSorted(p, x, lt);
        forall i | 0 <= i < |r| ensures !lt(last, r[i]) {
          assert r[i] == x || r[i] in p;
          if r[i] != x {
            var t :| 0 <= t < |p| && p[t] == r[i];
            assert s[t] == r[i];
          }
        }
      } else {
        forall i | 0 <= i < |s| ensures !lt(x, s[i]) {
          if i < |s| - 1 {
            assert !lt(last, s[i]);
          }
        }
      }
    }
  }

  /** Under a strict weak order the sort returns a sorted list. */
  lemma {:induction false} SortBySorted<T>(xs: seq<T>, lt: (T, T) -> bool, all: seq<T>)
    requires StrictWeakOn(all, lt) && forall y :: y in xs ==> y in all
    ensures SortedBy(SortBy(xs, lt), lt)
    decreases |xs|
  {
    if |xs| > 0 {
      var p := xs[..|xs| - 1];
      assert forall y :: y in p ==> y in xs;
      SortBySorted(p, lt, all);
      SortByPerm(p, lt);
      assert forall y :: y in SortBy(p, lt) ==> y in multiset(p);
      InsertSortedSorted(SortBy(p, lt), xs[|xs| - 1], lt, all);
    }
  }

  /** Sorting does not change a sum. */
  lemma {:induction false} SortBySum<T>(xs: seq<T>, lt: (T, T) -> bool, f: T -> real)
    ensures Sum(SortBy(xs, lt), f) == Sum(xs, f)
    decreases |xs|
  {
    if |xs| > 0 {
      SortBySum(xs[..|xs| - 1], lt, f);
      InsertSortedSum(SortBy(xs[..|xs| - 1], lt), xs[|xs| - 1], lt, f);
    }
  }

  lemma {:induction false} InsertSortedSum<T>(s: seq<T>, x: T, lt: (T, T) -> bool, f: T -> real)
    ensures Sum(InsertSorted(s, x, lt), f) == Sum(s, f) + f(x)
    decreases |s|
  {
    if |s| == 0 {
      assert [x][..0] == [];
    } else if lt(x, s[|s| - 1]) {
      InsertSortedSum(s[..|s| - 1], x, lt, f);
      var r := InsertSorted(s[..|s| - 1], x, lt) + [s[|s| - 1]];
      assert r[..|r| - 1] == InsertSorted(s[..|s| - 1], x, lt);
    } else {
      assert (s + [x])[..|s|] == s;
    }
  }
}
