/**
 * The two queryset operations the catalogue view applies, made eager:
 * `order_by` as a sorted permutation of the products and `filter` as an
 * order-preserving selection.
 */
module QuerySet {
  import opened Strings
  import opened Fields

  /** An `order_by` argument: a sort key, written with a leading '-' when descending. */
  datatype Ordering = Ordering(key: SortKey, descending: bool)

  /**
   * How `order_by` reads its argument: a leading '-' means descending, and
   * `lower_name` is the lower-cased name when the queryset has that annotation.
   */
  function ParseOrderBy(arg: string, annotated: bool): Ordering
  {
    var descending := |arg| > 0 && arg[0] == '-';
    var field := if descending then arg[1..] else arg;
    Ordering(if annotated && field == "lower_name" then LowerName else Column(field), descending)
  }

  /** Under ordering `o`, `a` may stand before `b`. */
  predicate Before(o: Ordering, a: Product, b: Product)
  {
    if o.descending then ValueLe(KeyValue(b, o.key), KeyValue(a, o.key))
    else ValueLe(KeyValue(a, o.key), KeyValue(b, o.key))
  }

  lemma BeforeTotal(o: Ordering, a: Product, b: Product)
    ensures Before(o, a, b) || Before(o, b, a)
  {
    ValueLeTotal(KeyValue(a, o.key), KeyValue(b, o.key));
  }

  lemma BeforeTransitive(o: Ordering, a: Product, b: Product, c: Product)
    requires Before(o, a, b) && Before(o, b, c)
    ensures Before(o, a, c)
  {
    if o.descending {
      ValueLeTransitive(KeyValue(c, o.key), KeyValue(b, o.key), KeyValue(a, o.key));
    } else {
      ValueLeTransitive(KeyValue(a, o.key), KeyValue(b, o.key), KeyValue(c, o.key));
    }
  }

  /** Every product stands before each one that follows it. */
  ghost predicate Sorted(s: seq<Product>, o: Ordering)
  {
    forall i, j :: 0 <= i < j < |s| ==> Before(o, s[i], s[j])
  }

  // ---------------------------------------------------------------------------
  // order_by
  // ---------------------------------------------------------------------------

  /** Places `x` into the sorted sequence `s`. */
  function Insert(x: Product, s: seq<Product>, o: Ordering): (r: seq<Product>)
    requires Sorted(s, o)
    ensures multiset(r) == multiset(s) + multiset{x}
    ensures Sorted(r, o)
    decreases |s|
  {
    if s == [] then
      [x]
    else if Before(o, x, s[0]) then
      InsertFront(x, s, o);
      [x] + s
    else
      var t := Insert(x, s[1..], o);
      InsertBehind(x, s, t, o);
      [s[0]] + t
  }

  lemma InsertFront(x: Product, s: seq<Product>, o: Ordering)
    requires s != [] && Sorted(s, o) && Before(o, x, s[0])
    ensures Sorted([x] + s, o)
  {
    var r := [x] + s;
    forall i, j | 0 <= i < j < |r|
      ensures Before(o, r[i], r[j])
    {
      if i == 0 && j > 1 {
        BeforeTransitive(o, x, s[0], s[j - 1]);
      }
    }
  }

  lemma InsertBehind(x: Product, s: seq<Product>, t: seq<Product>, o: Ordering)
    requires s != [] && Sorted(s, o) && !Before(o, x, s[0])
    requires Sorted(t, o) && multiset(t) == multiset(s[1..]) + multiset{x}
    ensures Sorted([s[0]] + t, o)
    ensures multiset([s[0]] + t) == multiset(s) + multiset{x}
  {
    BeforeTotal(o, x, s[0]);
    forall j | 0 <= j < |t|
      ensures Before(o, s[0], t[j])
    {
      assert t[j] in multiset(t);
      if t[j] != x {
        assert t[j] in multiset(s[1..]);
        var k :| 0 <= k < |s[1..]| && s[1..][k] == t[j];
        assert s[k + 1] == t[j];
      }
    }
    var r := [s[0]] + t;
    forall i, j | 0 <= i < j < |r|
      ensures Before(o, r[i], r[j])
    {
      if i > 0 {
        assert r[i] == t[i - 1] && r[j] == t[j - 1];
      }
    }
    assert s == [s[0]] + s[1..];
  }

  /** `order_by` with ordering `o`: the products, rearranged so that the order holds. */
  function OrderBy(s: seq<Product>, o: Ordering): (r: seq<Product>)
    ensures multiset(r) == multiset(s)
    ensures Sorted(r, o)
    decreases |s|
  {
    if s == [] then
      []
    else
      assert s == [s[0]] + s[1..];
      Insert(s[0], OrderBy(s[1..], o), o)
  }

  /** The sort keys of `s`, in order. */
  function Keys(s: seq<Product>, o: Ordering): seq<FieldValue>
  {
    seq(|s|, i requires 0 <= i < |s| => KeyValue(s[i], o.key))
  }

  lemma BeforeReflexive(o: Ordering, a: Product)
    ensures Before(o, a, a)
  {
    ValueLeReflexive(KeyValue(a, o.key));
  }

  /** A product standing between two with the same key has that key too. */
  lemma BetweenEqualKeys(o: Ordering, x: Product, y: Product, z: Product)
    requires Before(o, x, y) && Before(o, y, z) && KeyValue(x, o.key) == KeyValue(z, o.key)
    ensures KeyValue(y, o.key) == KeyValue(x, o.key)
  {
    ValueLeAntisymmetric(KeyValue(x, o.key), KeyValue(y, o.key));
  }

  /**
   * Sorting fixes the order of the keys: two sorted arrangements of the same
   * products agree key by key, so they differ only among products whose keys
   * are equal.
   */
  lemma {:induction false} SortedKeysUnique(a: seq<Product>, b: seq<Product>, o: Ordering)
    requires Sorted(a, o) && Sorted(b, o) && multiset(a) == multiset(b)
    ensures Keys(a, o) == Keys(b, o)
    decreases |a|
  {
    assert |a| == |multiset(a)| == |multiset(b)| == |b|;
    if a != [] {
      assert a[0] in multiset(b) && b[0] in multiset(a);
      var j :| 0 <= j < |b| && b[j] == a[0];
      var i :| 0 <= i < |a| && a[i] == b[0];
      BeforeReflexive(o, a[0]);
      BeforeReflexive(o, b[0]);
      assert Before(o, a[0], a[i]) && Before(o, b[0], b[j]);
      BetweenEqualKeys(o, a[0], b[0], a[0]);
      RemoveMatching(a, b, j);
      RemoveKeepsSorted(b, j, o);
      SortedKeysUnique(a[1..], b[..j] + b[j + 1..], o);
      KeysStep(a, b, j, o);
    }
  }

  /** Taking the first element of `a` out of `a`, and one copy of it out of `b`, keeps the multisets equal. */
  lemma RemoveMatching(a: seq<Product>, b: seq<Product>, j: int)
    requires a != [] && 0 <= j < |b| && b[j] == a[0] && multiset(a) == multiset(b)
    ensures multiset(a[1..]) == multiset(b[..j] + b[j + 1..])
  {
    assert b == b[..j] + [b[j]] + b[j + 1..];
    assert multiset(b) == multiset(b[..j]) + multiset{b[j]} + multiset(b[j + 1..]);
    assert a == [a[0]] + a[1..];
    assert multiset(a) == multiset{a[0]} + multiset(a[1..]);
    assert multiset(b[..j] + b[j + 1..]) == multiset(b[..j]) + multiset(b[j + 1..]);
    assert multiset(b) == multiset{a[0]} + multiset(b[..j] + b[j + 1..]);
    assert multiset(a[1..]) == multiset(a) - multiset{a[0]};
    assert multiset(b[..j] + b[j + 1..]) == multiset(b) - multiset{a[0]};
  }

  /** The inductive step of `SortedKeysUnique`: the keys of `b` before position `j` all equal the first key. */
  lemma KeysStep(a: seq<Product>, b: seq<Product>, j: int, o: Ordering)
    requires |a| == |b| && 0 <= j < |b| && b[j] == a[0] && Sorted(b, o)
    requires KeyValue(b[0], o.key) == KeyValue(a[0], o.key)
    requires Keys(a[1..], o) == Keys(b[..j] + b[j + 1..], o)
    ensures Keys(a, o) == Keys(b, o)
  {
    var rest := b[..j] + b[j + 1..];
    forall k | 0 <= k < |a|
      ensures KeyValue(a[k], o.key) == KeyValue(b[k], o.key)
    {
      if k > 0 {
        assert KeyValue(a[k], o.key) == Keys(a[1..], o)[k - 1] == Keys(rest, o)[k - 1];
        if k <= j {
          assert rest[k - 1] == b[k - 1];
          BeforeReflexive(o, b[0]);
          BetweenEqualKeys(o, b[0], b[k - 1], b[j]);
          BetweenEqualKeys(o, b[0], b[k], b[j]);
        } else {
          assert rest[k - 1] == b[k];
        }
      }
    }
  }

  /** Taking one element out of a sorted sequence leaves it sorted. */
  lemma RemoveKeepsSorted(s: seq<Product>, j: int, o: Ordering)
    requires 0 <= j < |s| && Sorted(s, o)
    ensures Sorted(s[..j] + s[j + 1..], o)
  {
    var r := s[..j] + s[j + 1..];
    forall i, l | 0 <= i < l < |r|
      ensures Before(o, r[i], r[l])
    {
      var i' := if i < j then i else i + 1;
      var l' := if l < j then l else l + 1;
      assert r[i] == s[i'] && r[l] == s[l'];
    }
  }

  // ---------------------------------------------------------------------------
  // filter
  // ---------------------------------------------------------------------------

  /**
   * The search condition `Q(name__icontains=query) | Q(author__icontains=query)`:
   * the query occurs, ignoring case, in the name or in the author.
   */
  predicate Matches(p: Product, query: string)
  {
    IContains(p.name, query) || IContains(p.author, query)
  }

  /** The search condition is an OR of two case-insensitive substring tests. */
  lemma MatchesMeaning(p: Product, query: string)
    ensures Matches(p, query) <==> Occurs(Lower(query), Lower(p.name)) || Occurs(Lower(query), Lower(p.author))
  {
  }

  /** `filter` on the search condition: the matching products, in the order they had. */
  function Filter(s: seq<Product>, query: string): (r: seq<Product>)
    ensures forall p :: multiset(r)[p] == if Matches(p, query) then multiset(s)[p] else 0
    decreases |s|
  {
    if s == [] then
      []
    else
      assert s == [s[0]] + s[1..];
      (if Matches(s[0], query) then [s[0]] else []) + Filter(s[1..], query)
  }

  /** `idx` lists, in increasing order, positions of `b` that spell out `a`. */
  ghost predicate Embeds(a: seq<Product>, b: seq<Product>, idx: seq<int>)
  {
    && |idx| == |a|
    && (forall k :: 0 <= k < |idx| ==> 0 <= idx[k] < |b| && a[k] == b[idx[k]])
    && (forall k, l :: 0 <= k < l < |idx| ==> idx[k] < idx[l])
  }

  /** `a` is `b` with some elements left out and the rest kept in order. */
  ghost predicate IsSubsequence(a: seq<Product>, b: seq<Product>)
  {
    exists idx :: Embeds(a, b, idx)
  }

  /** Exactly the products that match are kept. */
  lemma FilterKeepsExactlyMatches(s: seq<Product>, query: string, p: Product)
    ensures p in Filter(s, query) <==> p in s && Matches(p, query)
  {
    assert p in Filter(s, query) <==> p in multiset(Filter(s, query));
    assert p in s <==> p in multiset(s);
  }

  /** Filtering never reorders: its result is a subsequence of its input. */
  lemma {:induction false} FilterIsSubsequence(s: seq<Product>, query: string)
    ensures IsSubsequence(Filter(s, query), s)
    decreases |s|
  {
    if s == [] {
      assert Embeds(Filter(s, query), s, []);
    } else {
      var rest := Filter(s[1..], query);
      FilterIsSubsequence(s[1..], query);
      var idx :| Embeds(rest, s[1..], idx);
      if Matches(s[0], query) {
        assert Filter(s, query) == [s[0]] + rest;
        EmbedsKeep(s, rest, idx);
      } else {
        assert Filter(s, query) == rest;
        EmbedsSkip(s, rest, idx);
      }
    }
  }

  /** Shifts every position one place to the right. */
  function Shift(idx: seq<int>): (r: seq<int>)
  {
    seq(|idx|, k requires 0 <= k < |idx| => idx[k] + 1)
  }

  lemma EmbedsKeep(b: seq<Product>, a: seq<Product>, idx: seq<int>)
    requires b != [] && Embeds(a, b[1..], idx)
    ensures Embeds([b[0]] + a, b, [0] + Shift(idx))
  {
  }

  lemma EmbedsSkip(b: seq<Product>, a: seq<Product>, idx: seq<int>)
    requires b != [] && Embeds(a, b[1..], idx)
    ensures Embeds(a, b, Shift(idx))
  {
  }

  /** Leaving elements out of a sorted sequence keeps it sorted. */
  lemma SubsequenceKeepsSorted(a: seq<Product>, b: seq<Product>, o: Ordering)
    requires IsSubsequence(a, b) && Sorted(b, o)
    ensures Sorted(a, o)
  {
    var idx :| Embeds(a, b, idx);
    forall i, j | 0 <= i < j < |a|
      ensures Before(o, a[i], a[j])
    {
      assert a[i] == b[idx[i]] && a[j] == b[idx[j]] && idx[i] < idx[j];
    }
  }

  /** Filtering a sorted sequence leaves it sorted. */
  lemma FilterKeepsSorted(s: seq<Product>, query: string, o: Ordering)
    requires Sorted(s, o)
    ensures Sorted(Filter(s, query), o)
  {
    FilterIsSubsequence(s, query);
    SubsequenceKeepsSorted(Filter(s, query), s, o);
  }
}
