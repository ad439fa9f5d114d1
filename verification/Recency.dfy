/** The recency order a least-recently-used cache is meant to keep, as a function of the calls made. */
module Recency {
  import opened Wrappers

  datatype Lookup<V> = Found(value: V) | Missing

  datatype Op<K, V> = Add(key: K, value: V) | Get(key: K)

  // ---------------------------------------------------------------- recency lists

  function Without<K(==), V>(s: seq<(K, V)>, k: K): seq<(K, V)> {
    if s == [] then []
    else if s[0].0 == k then Without(s[1..], k)
    else [s[0]] + Without(s[1..], k)
  }

  function Find<K(==), V>(s: seq<(K, V)>, k: K): Lookup<V> {
    if s == [] then Missing
    else if s[0].0 == k then Found(s[0].1)
    else Find(s[1..], k)
  }

  function Keys<K, V>(s: seq<(K, V)>): seq<K> {
    seq(|s|, i requires 0 <= i < |s| => s[i].0)
  }

  function Take<T>(s: seq<T>, n: nat): seq<T> {
    if |s| <= n then s else s[..n]
  }

  function AfterAdd<K(==), V>(capacity: nat, s: seq<(K, V)>, k: K, v: V): seq<(K, V)> {
    Take([(k, v)] + Without(s, k), capacity)
  }

  function AfterGet<K(==), V>(s: seq<(K, V)>, k: K): seq<(K, V)> {
    match Find(s, k)
    case Found(v) => [(k, v)] + Without(s, k)
    case Missing => s
  }

  function Step<K(==), V>(capacity: nat, s: seq<(K, V)>, op: Op<K, V>): seq<(K, V)> {
    match op
    case Add(k, v) => AfterAdd(capacity, s, k, v)
    case Get(k) => AfterGet(s, k)
  }

  /** The cache contents, most recent first, after a run of calls. */
  function Run<K(==), V>(capacity: nat, ops: seq<Op<K, V>>): seq<(K, V)> {
    if ops == [] then [] else Step(capacity, Run(capacity, ops[..|ops| - 1]), ops[|ops| - 1])
  }

  // ---------------------------------------------------------------- references: touches, and recency without a
  // capacity

  /** The distinct elements of `ts`, latest occurrence first. */
  function Latest<K(==)>(ts: seq<K>): seq<K> {
    if ts == [] then [] else [ts[|ts| - 1]] + Minus(Latest(ts[..|ts| - 1]), ts[|ts| - 1])
  }

  function Minus<K(==)>(s: seq<K>, k: K): seq<K> {
    if s == [] then []
    else if s[0] == k then Minus(s[1..], k)
    else [s[0]] + Minus(s[1..], k)
  }

  /** The keys a run touches: every Add, and every Get that finds its key. */
  function Touches<K(==), V>(capacity: nat, ops: seq<Op<K, V>>): seq<K> {
    if ops == [] then []
    else
      var op := ops[|ops| - 1];
      Touches(capacity, ops[..|ops| - 1])
      + if op.Add? || Find(Run(capacity, ops[..|ops| - 1]), op.key).Found? then [op.key] else []
  }

  /** The value of the last Add of `k`. */
  function LastAdded<K(==), V>(ops: seq<Op<K, V>>, k: K): Lookup<V> {
    if ops == [] then Missing
    else
      var op := ops[|ops| - 1];
      if op.Add? && op.key == k then Found(op.value) else LastAdded(ops[..|ops| - 1], k)
  }

  /** The position after the last occurrence of `k`, 0 if there is none. */
  function LastTouch<K(==)>(ts: seq<K>, k: K): (n: nat)
    ensures n <= |ts|
  {
    if ts == [] then 0 else if ts[|ts| - 1] == k then |ts| else LastTouch(ts[..|ts| - 1], k)
  }

  // ---------------------------------------------------------------- Minus and Latest

  lemma {:induction false} MinusElements<K>(s: seq<K>, k: K)
    ensures forall x :: x in Minus(s, k) <==> x in s && x != k
    ensures Distinct(s) ==> Distinct(Minus(s, k))
  {
    if s != [] {
      MinusElements(s[1..], k);
      assert s == [s[0]] + s[1..];
      if Distinct(s) {
        assert Distinct(s[1..]);
        assert s[0] !in s[1..];
      }
    }
  }

  lemma {:induction false} MinusElement<K>(s: seq<K>, k: K, x: K)
    ensures x in Minus(s, k) <==> x in s && x != k
  {
    if s != [] {
      MinusElement(s[1..], k, x);
      assert s == [s[0]] + s[1..];
    }
  }

  lemma {:induction false} MinusAbsent<K>(s: seq<K>, k: K)
    requires k !in s
    ensures Minus(s, k) == s
  {
    if s != [] { MinusAbsent(s[1..], k); }
  }

  lemma {:induction false} MinusLength<K>(s: seq<K>, k: K)
    requires Distinct(s)
    ensures |Minus(s, k)| == if k in s then |s| - 1 else |s|
  {
    if s != [] {
      assert s == [s[0]] + s[1..];
      assert Distinct(s[1..]);
      if s[0] == k {
        assert k !in s[1..];
        MinusAbsent(s[1..], k);
      } else {
        MinusLength(s[1..], k);
      }
    }
  }

  lemma TakeCons<K>(s: seq<K>, n: nat)
    requires s != [] && n > 0
    ensures Take(s, n) == [s[0]] + Take(s[1..], n - 1)
  {}

  lemma DistinctTail<K>(s: seq<K>)
    requires s != [] && Distinct(s)
    ensures Distinct(s[1..]) && s[0] !in s[1..]
  {}

  lemma TakeElements<K>(s: seq<K>, n: nat, k: K)
    ensures k in Take(s, n) ==> k in s
  {}

  /** Removing an element from a prefix that contains it. */
  lemma {:induction false} MinusTakeIn<K>(s: seq<K>, k: K, n: nat)
    requires Distinct(s) && k in Take(s, n)
    ensures n > 0 && Minus(Take(s, n), k) == Take(Minus(s, k), n - 1)
    decreases |s|
  {
    var rest := s[1..];
    DistinctTail(s);
    TakeCons(s, n);
    TakeElements(rest, n - 1, k);
    if s[0] == k {
      MinusAbsent(rest, k);
      MinusAbsent(Take(rest, n - 1), k);
    } else {
      MinusTakeIn(rest, k, n - 1);
      TakeCons([s[0]] + Minus(rest, k), n - 1);
    }
  }

  /** An element beyond a prefix does not matter to a shorter one. */
  lemma {:induction false} MinusTakeOut<K>(s: seq<K>, k: K, n: nat)
    requires Distinct(s) && k !in Take(s, n) && n > 0
    ensures Take(Minus(s, k), n - 1) == Take(s, n - 1)
    decreases |s|
  {
    if s != [] && n > 1 {
      var rest := s[1..];
      DistinctTail(s);
      TakeCons(s, n);
      TakeCons(s, n - 1);
      MinusTakeOut(rest, k, n - 1);
      TakeCons([s[0]] + Minus(rest, k), n - 1);
    }
  }

  lemma LatestUnfold<K>(ts: seq<K>)
    requires ts != []
    ensures Latest(ts) == [ts[|ts| - 1]] + Minus(Latest(ts[..|ts| - 1]), ts[|ts| - 1])
  {}

  lemma {:induction false} LatestElement<K>(ts: seq<K>, x: K)
    ensures x in Latest(ts) <==> x in ts
  {
    if ts != [] {
      var before, k := ts[..|ts| - 1], ts[|ts| - 1];
      LatestElement(before, x);
      MinusElement(Latest(before), k, x);
      assert ts == before + [k];
      LatestUnfold(ts);
    }
  }

  lemma {:induction false} LatestDistinct<K>(ts: seq<K>)
    ensures Distinct(Latest(ts))
  {
    if ts != [] {
      var before, k := ts[..|ts| - 1], ts[|ts| - 1];
      LatestDistinct(before);
      MinusElements(Latest(before), k);
      MinusElement(Latest(before), k, k);
      FrontDistinct(Minus(Latest(before), k), k);
      LatestUnfold(ts);
    }
  }

  /** `Latest` lists exactly the elements, once each, by last occurrence. */
  lemma {:induction false} LatestOrder<K>(ts: seq<K>)
    ensures Distinct(Latest(ts)) && (forall x :: x in Latest(ts) <==> x in ts)
    ensures forall i, j :: 0 <= i < j < |Latest(ts)| ==> LastTouch(ts, Latest(ts)[i]) > LastTouch(ts, Latest(ts)[j])
  {
    LatestDistinct(ts);
    forall x ensures x in Latest(ts) <==> x in ts { LatestElement(ts, x); }
    if ts != [] {
      LatestOrder(ts[..|ts| - 1]);
      LatestStep(ts, Latest(ts[..|ts| - 1]));
      LatestUnfold(ts);
    }
  }

  lemma FrontDistinct<K>(s: seq<K>, k: K)
    requires Distinct(s) && k !in s
    ensures Distinct([k] + s)
  {
    var t := [k] + s;
    forall i, j | 0 <= i < j < |t| ensures t[i] != t[j] {
      assert t[j] == s[j - 1] && t[j] in s;
    }
  }

  lemma LatestStep<K>(ts: seq<K>, l: seq<K>)
    requires ts != [] && forall i, j :: 0 <= i < j < |l| ==>
               LastTouch(ts[..|ts| - 1], l[i]) > LastTouch(ts[..|ts| - 1], l[j])
    ensures var m := [ts[|ts| - 1]] + Minus(l, ts[|ts| - 1]);
            forall i, j :: 0 <= i < j < |m| ==> LastTouch(ts, m[i]) > LastTouch(ts, m[j])
  {
    var k, before := ts[|ts| - 1], ts[..|ts| - 1];
    var r := Minus(l, k);
    MinusKeepsOrder(before, l, k);
    forall i | 0 <= i < |r| ensures LastTouch(ts, r[i]) == LastTouch(before, r[i]) < |ts| {
      MinusElement(l, k, r[i]);
    }
  }

  lemma {:induction false} MinusKeepsOrder<K>(ts: seq<K>, l: seq<K>, k: K)
    requires forall i, j :: 0 <= i < j < |l| ==> LastTouch(ts, l[i]) > LastTouch(ts, l[j])
    ensures forall i, j :: 0 <= i < j < |Minus(l, k)| ==> LastTouch(ts, Minus(l, k)[i]) > LastTouch(ts, Minus(l, k)[j])
  {
    if l != [] {
      MinusKeepsOrder(ts, l[1..], k);
      MinusElements(l[1..], k);
      var r := Minus(l[1..], k);
      forall j | 0 <= j < |r| ensures LastTouch(ts, l[0]) > LastTouch(ts, r[j]) {
        MinusElement(l[1..], k, r[j]);
        assert r[j] in r && r[j] in l[1..];
        var h :| 0 <= h < |l[1..]| && l[1..][h] == r[j];
        assert l[1..][h] == l[h + 1];
      }
    }
  }

  // ---------------------------------------------------------------- pairs and their keys

  lemma {:induction false} KeysWithout<K, V>(s: seq<(K, V)>, k: K)
    ensures Keys(Without(s, k)) == Minus(Keys(s), k)
  {
    if s != [] {
      KeysWithout(s[1..], k);
      assert Keys(s)[1..] == Keys(s[1..]);
    }
  }

  lemma {:induction false} FindKeys<K, V>(s: seq<(K, V)>, k: K)
    ensures Find(s, k).Found? <==> k in Keys(s)
  {
    if s != [] {
      FindKeys(s[1..], k);
      assert Keys(s) == [s[0].0] + Keys(s[1..]);
    }
  }

  lemma {:induction false} FindWithout<K, V>(s: seq<(K, V)>, k: K, x: K)
    ensures Find(Without(s, k), x) == if x == k then Missing else Find(s, x)
  {
    if s != [] { FindWithout(s[1..], k, x); }
  }

  lemma {:induction false} FindTake<K, V>(s: seq<(K, V)>, n: nat, x: K)
    ensures Find(Take(s, n), x).Found? ==> Find(Take(s, n), x) == Find(s, x)
  {
    if s != [] && n > 0 {
      FindTake(s[1..], n - 1, x);
      assert Take(s, n)[1..] == Take(s[1..], n - 1);
    }
  }

  lemma FindFront<K, V>(s: seq<(K, V)>, k: K, v: V, x: K)
    ensures Find([(k, v)] + s, x) == if x == k then Found(v) else Find(s, x)
  {
    assert ([(k, v)] + s)[1..] == s;
  }

  // ---------------------------------------------------------------- the theorems

  /** The bounded cache holds exactly the most recently touched keys, in order of last touch. */
  lemma {:induction false} CacheIsRecencyPrefix<K, V>(capacity: nat, ops: seq<Op<K, V>>)
    requires capacity > 0
    ensures Keys(Run(capacity, ops)) == Take(Latest(Touches(capacity, ops)), capacity)
  {
    if ops != [] {
      var n := |ops| - 1;
      CacheIsRecencyPrefix(capacity, ops[..n]);
      PrefixStep(capacity, Run(capacity, ops[..n]), Touches(capacity, ops[..n]), ops[n]);
    }
  }

  ghost function Touched<K, V>(s: seq<(K, V)>, ts: seq<K>, op: Op<K, V>): seq<K> {
    ts + if op.Add? || Find(s, op.key).Found? then [op.key] else []
  }

  lemma PrefixStep<K, V>(capacity: nat, s: seq<(K, V)>, ts: seq<K>, op: Op<K, V>)
    requires capacity > 0 && Keys(s) == Take(Latest(ts), capacity)
    ensures Keys(Step(capacity, s, op)) == Take(Latest(Touched(s, ts, op)), capacity)
  {
    FindKeys(s, op.key);
    if op.Add? || Find(s, op.key).Found? {
      var v := if op.Add? then op.value else Find(s, op.key).value;
      TouchStep(capacity, s, ts, op.key);
      TouchedKeys(s, op.key, v);
      TakeKeys([(op.key, v)] + Without(s, op.key), capacity);
      LatestPush(ts, op.key);
      if op.Get? {
        LatestOrder(ts);
        GetFits(s, op.key, v, capacity, Latest(ts));
      }
    } else {
      assert ts + [] == ts;
    }
  }

  lemma LatestPush<K>(ts: seq<K>, k: K)
    ensures Latest(ts + [k]) == [k] + Minus(Latest(ts), k)
  {
    assert (ts + [k])[..|ts|] == ts;
  }

  lemma TouchedKeys<K, V>(s: seq<(K, V)>, k: K, v: V)
    ensures Keys([(k, v)] + Without(s, k)) == [k] + Minus(Keys(s), k)
  {
    KeysWithout(s, k);
  }

  lemma TakeKeys<K, V>(s: seq<(K, V)>, n: nat)
    ensures Keys(Take(s, n)) == Take(Keys(s), n)
  {}

  /** Moving a touched key to the front commutes with cutting to capacity. */
  lemma TouchStep<K, V>(capacity: nat, s: seq<(K, V)>, ts: seq<K>, k: K)
    requires capacity > 0 && Keys(s) == Take(Latest(ts), capacity)
    ensures Take([k] + Minus(Keys(s), k), capacity) == Take([k] + Minus(Latest(ts), k), capacity)
  {
    var l := Latest(ts);
    LatestOrder(ts);
    assert Take([k] + Minus(l, k), capacity) == [k] + Take(Minus(l, k), capacity - 1);
    if k in Keys(s) {
      MinusTakeIn(l, k, capacity);
      MinusLength(Take(l, capacity), k);
    } else {
      MinusTakeOut(l, k, capacity);
      MinusAbsent(Keys(s), k);
      assert Take([k] + Keys(s), capacity) == [k] + Take(l, capacity - 1);
    }
  }

  lemma GetFits<K, V>(s: seq<(K, V)>, k: K, v: V, capacity: nat, l: seq<K>)
    requires k in Keys(s) && Keys(s) == Take(l, capacity) && Distinct(l)
    ensures Take([(k, v)] + Without(s, k), capacity) == [(k, v)] + Without(s, k)
  {
    KeysWithout(s, k);
    MinusLength(Keys(s), k);
  }

  /** Keys are distinct, never more than the capacity, and ordered by last touch. */
  lemma CacheOrder<K, V>(capacity: nat, ops: seq<Op<K, V>>)
    requires capacity > 0
    ensures |Run(capacity, ops)| <= capacity && Distinct(Keys(Run(capacity, ops)))
    ensures forall i, j :: 0 <= i < j < |Run(capacity, ops)| ==>
              LastTouch(Touches(capacity, ops), Run(capacity, ops)[i].0) > LastTouch(Touches(capacity, ops),
                                                                                     Run(capacity, ops)[j].0)
  {
    CacheIsRecencyPrefix(capacity, ops);
    LatestOrder(Touches(capacity, ops));
    var s, l := Run(capacity, ops), Latest(Touches(capacity, ops));
    assert |Keys(s)| == |s|;
    forall i | 0 <= i < |s| ensures s[i].0 == l[i] {
      assert Keys(s)[i] == s[i].0;
    }
  }

  /** A retained key has the value last added for it. */
  lemma {:induction false} RetainedValue<K, V>(capacity: nat, ops: seq<Op<K, V>>, k: K)
    ensures Find(Run(capacity, ops), k).Found? ==> Find(Run(capacity, ops), k) == LastAdded(ops, k)
  {
    if ops != [] {
      var n := |ops| - 1;
      var s, op := Run(capacity, ops[..n]), ops[n];
      RetainedValue(capacity, ops[..n], k);
      FindWithout(s, op.key, k);
      if op.Add? {
        FindFront(Without(s, op.key), op.key, op.value, k);
        FindTake([(op.key, op.value)] + Without(s, op.key), capacity, k);
      } else if Find(s, op.key).Found? {
        FindFront(Without(s, op.key), op.key, Find(s, op.key).value, k);
      }
    }
  }

  /** Whatever an Add drops was touched longer ago than everything it keeps. */
  lemma EvictsLeastRecent<K, V>(capacity: nat, ops: seq<Op<K, V>>, k: K, v: V, dropped: K, kept: K)
    requires capacity > 0
    requires dropped in Keys(Run(capacity, ops)) && dropped !in Keys(Run(capacity, ops + [Add(k, v)]))
    requires kept in Keys(Run(capacity, ops + [Add(k, v)])) && kept != k
    ensures kept in Keys(Run(capacity, ops)) && |Run(capacity, ops)| == capacity
    ensures LastTouch(Touches(capacity, ops), dropped) < LastTouch(Touches(capacity, ops), kept)
  {
    var s := Run(capacity, ops);
    assert (ops + [Add(k, v)])[..|ops|] == ops;
    TouchedKeys(s, k, v);
    TakeKeys([(k, v)] + Without(s, k), capacity);
    CacheOrder(capacity, ops);
    DropIsLast(capacity, Keys(s), k, dropped, kept);
    KeyAt(s, |s| - 1);
    var i :| 0 <= i < |Keys(s)| - 1 && Keys(s)[i] == kept;
    KeyAt(s, i);
  }

  lemma KeyAt<K, V>(s: seq<(K, V)>, i: int)
    ensures |Keys(s)| == |s|
    ensures 0 <= i < |s| ==> Keys(s)[i] == s[i].0
  {}

  lemma FrontTake<K>(capacity: nat, l: seq<K>, k: K)
    requires capacity > 0
    ensures Take([k] + l, capacity) == [k] + Take(l, capacity - 1)
  {}

  lemma InTake<K>(l: seq<K>, n: nat, h: nat)
    requires h < |l|
    ensures h < n ==> l[h] in Take(l, n)
  {
    if h < n { assert Take(l, n)[h] == l[h]; }
  }

  lemma CutLast<K>(l: seq<K>, n: nat, dropped: K)
    requires |l| <= n + 1 && dropped in l && dropped !in Take(l, n)
    ensures |l| == n + 1 && dropped == l[n]
  {
    var h :| 0 <= h < |l| && l[h] == dropped;
    InTake(l, n, h);
  }

  lemma DropIsLast<K>(capacity: nat, l: seq<K>, k: K, dropped: K, kept: K)
    requires capacity > 0 && Distinct(l) && |l| <= capacity && dropped in l
    requires dropped !in Take([k] + Minus(l, k), capacity) && kept in Take([k] + Minus(l, k), capacity) && kept != k
    ensures |l| == capacity && dropped == l[capacity - 1]
    ensures exists i :: 0 <= i < |l| - 1 && l[i] == kept
  {
    NothingDropped(capacity, l, k, dropped);
    MinusAbsent(l, k);
    FrontTake(capacity, l, k);
    CutLast(l, capacity - 1, dropped);
    assert kept in l[..capacity - 1];
    var i :| 0 <= i < capacity - 1 && l[..capacity - 1][i] == kept;
    assert l[i] == kept;
  }

  /** Adding a retained key drops nothing. */
  lemma NothingDropped<K>(capacity: nat, l: seq<K>, k: K, x: K)
    requires capacity > 0 && Distinct(l) && |l| <= capacity && x in l
    ensures k in l ==> x in Take([k] + Minus(l, k), capacity)
  {
    MinusElement(l, k, x);
    MinusLength(l, k);
  }

  // ---------------------------------------------------------------- within capacity, one entry per key

  ghost predicate Bounded<K, V>(capacity: nat, s: seq<(K, V)>) {
    |s| <= capacity && Distinct(Keys(s))
  }

  lemma FrontBounded<K, V>(s: seq<(K, V)>, k: K, v: V)
    requires Distinct(Keys(s))
    ensures Distinct(Keys([(k, v)] + Without(s, k)))
    ensures |[(k, v)] + Without(s, k)| == if k in Keys(s) then |s| else |s| + 1
  {
    TouchedKeys(s, k, v);
    KeysWithout(s, k);
    MinusElements(Keys(s), k);
    MinusElement(Keys(s), k, k);
    MinusLength(Keys(s), k);
    FrontDistinct(Minus(Keys(s), k), k);
  }

  lemma AddBounded<K, V>(capacity: nat, s: seq<(K, V)>, k: K, v: V)
    requires Bounded(capacity, s)
    ensures Bounded(capacity, AfterAdd(capacity, s, k, v))
  {
    FrontBounded(s, k, v);
    TakeKeys([(k, v)] + Without(s, k), capacity);
  }

  lemma GetBounded<K, V>(capacity: nat, s: seq<(K, V)>, k: K)
    requires Bounded(capacity, s)
    ensures Bounded(capacity, AfterGet(s, k))
  {
    FindKeys(s, k);
    if Find(s, k).Found? { FrontBounded(s, k, Find(s, k).value); }
  }

  lemma {:induction false} WithoutTwice<K, V>(s: seq<(K, V)>, k: K)
    ensures Without(Without(s, k), k) == Without(s, k)
  {
    if s != [] {
      WithoutTwice(s[1..], k);
      assert s[0].0 != k ==> Without(s, k)[1..] == Without(s[1..], k);
    }
  }

  /** Adding back the value just read changes nothing. */
  lemma AddAfterGet<K, V>(capacity: nat, s: seq<(K, V)>, k: K, v: V)
    requires Bounded(capacity, s) && Find(s, k) == Found(v)
    ensures AfterAdd(capacity, AfterGet(s, k), k, v) == AfterGet(s, k)
  {
    WithoutTwice(s, k);
    var front := [(k, v)] + Without(s, k);
    assert front[1..] == Without(s, k);
    assert Without(front, k) == Without(s, k);
    GetBounded(capacity, s, k);
  }

  // ---------------------------------------------------------------- exactly when a key is retained

  /** The keys touched after the last touch of `k`. */
  ghost function Since<K(!new)>(ts: seq<K>, k: K): set<K> {
    set x | x in ts[LastTouch(ts, k)..]
  }

  lemma {:induction false} LastTouchIs<K>(ts: seq<K>, k: K)
    ensures LastTouch(ts, k) > 0 ==> ts[LastTouch(ts, k) - 1] == k
    ensures forall i :: LastTouch(ts, k) <= i < |ts| ==> ts[i] != k
  {
    if ts != [] && ts[|ts| - 1] != k {
      var before := ts[..|ts| - 1];
      LastTouchIs(before, k);
      forall i | LastTouch(ts, k) <= i < |ts| ensures ts[i] != k {
        if i < |before| { assert before[i] == ts[i]; }
      }
    }
  }

  lemma TouchedLater<K(!new)>(ts: seq<K>, k: K, x: K)
    ensures x in Since(ts, k) <==> LastTouch(ts, x) > LastTouch(ts, k)
  {
    var n, m := LastTouch(ts, k), LastTouch(ts, x);
    LastTouchIs(ts, k);
    LastTouchIs(ts, x);
    if m > n {
      assert ts[n..][m - 1 - n] == x;
    }
    if x in ts[n..] {
      var i :| 0 <= i < |ts[n..]| && ts[n..][i] == x;
      assert ts[n + i] == x;
    }
  }

  lemma {:induction false} DistinctSize<K(!new)>(l: seq<K>)
    requires Distinct(l)
    ensures |set x | x in l| == |l|
  {
    if l != [] {
      DistinctTail(l);
      DistinctSize(l[1..]);
      assert (set x | x in l) == (set x | x in l[1..]) + {l[0]} by { assert l == [l[0]] + l[1..]; }
    }
  }

  /** A key's place in the recency list is the number of keys touched since. */
  lemma PlaceInLatest<K(!new)>(ts: seq<K>, j: nat)
    requires j < |Latest(ts)|
    ensures |Since(ts, Latest(ts)[j])| == j
  {
    var l := Latest(ts);
    var newer := l[..j];
    LatestOrder(ts);
    forall x ensures x in Since(ts, l[j]) <==> x in newer {
      TouchedLater(ts, l[j], x);
      if x in newer {
        var i :| 0 <= i < j && newer[i] == x;
        assert l[i] == x;
      }
      if x in Since(ts, l[j]) {
        assert x in l;
        var i :| 0 <= i < |l| && l[i] == x;
        assert i < j ==> newer[i] == x;
      }
    }
    assert Since(ts, l[j]) == set x | x in newer;
    DistinctSize(newer);
  }

  /** A key is retained exactly when it was touched and fewer keys than the capacity were touched since. */
  lemma RetainedIff<K(!new), V>(capacity: nat, ops: seq<Op<K, V>>, k: K)
    requires capacity > 0
    ensures var ts := Touches(capacity, ops);
            Find(Run(capacity, ops), k).Found? <==> k in ts && |Since(ts, k)| < capacity
  {
    var ts := Touches(capacity, ops);
    var l := Latest(ts);
    FindKeys(Run(capacity, ops), k);
    CacheIsRecencyPrefix(capacity, ops);
    LatestOrder(ts);
    assert k in l <==> k in ts;
    if k in l {
      var j :| 0 <= j < |l| && l[j] == k;
      PlaceInLatest(ts, j);
      InTakeIff(l, capacity, j);
    } else {
      TakeElements(l, capacity, k);
    }
  }

  lemma InTakeIff<K>(l: seq<K>, n: nat, j: nat)
    requires Distinct(l) && j < |l|
    ensures l[j] in Take(l, n) <==> j < n
  {
    InTake(l, n, j);
    if l[j] in Take(l, n) {
      var i :| 0 <= i < |Take(l, n)| && Take(l, n)[i] == l[j];
      assert l[i] == l[j];
    }
  }

  lemma RunSnoc<K, V>(capacity: nat, ops: seq<Op<K, V>>, op: Op<K, V>)
    ensures Run(capacity, ops + [op]) == Step(capacity, Run(capacity, ops), op)
  {
    assert (ops + [op])[..|ops|] == ops;
  }
}
