/** Printing and parsing node sets: the round trip, and that the printed form depends on the set of names only. */
module NodeRoundTrip {
  import opened Wrappers
  import opened Lex
  import opened Numerals
  import opened NodeSyntax
  import opened NodeList
  import opened NodeCompact
  import opened NodeRanges
  import opened NodeGroups

  // ---------------------------------------------------------------- one entry

  /** The names of a group, as its entry expands to them. */
  ghost function NamesOf(p: string, sorted: seq<string>): seq<string> {
    if sorted == [] then [p] else Prefixed(p, sorted)
  }

  /** What is known of the entry of prefix `p`: its sorted numbers. */
  ghost predicate EntryOf(nodes: seq<string>, p: string, e: string, w: nat, sorted: seq<string>) {
    && GroupNumbers(p, w, sorted) && e == p + Compressed(sorted)
    && (forall x :: x in sorted <==> Member(nodes, p, x))
    && (sorted == [] ==> p in nodes && !Numbered(p))
  }

  lemma EntryExists(nodes: seq<string>, p: string, e: string) returns (w: nat, sorted: seq<string>)
    requires WellNamed(nodes) && IsEntry(GroupsOf(nodes), p, e)
    ensures EntryOf(nodes, p, e, w, sorted) && SortedOf(GroupsOf(nodes)[p], sorted)
  {
    var groups := GroupsOf(nodes);
    GroupsHold(nodes);
    assert GroupOk(nodes, groups, p) && OneWidthAt(nodes, p);
    w :| Width(nodes, p, w);
    sorted :| SortedOf(groups[p], sorted) && e == p + Compressed(sorted);
    SortedGroup(nodes, p, w, groups[p], sorted);
    SameMultiset(groups[p], sorted);
    forall x | Member(nodes, p, x) ensures x in groups[p] {
      MemberNumber(nodes, p, x);
      assert NodeOk(groups, p + x);
    }
  }

  lemma StemPlain(nodes: seq<string>, p: string, x: string)
    requires WellNamed(nodes) && Member(nodes, p, x)
    ensures PlainPrefix(p) && (p != "" ==> !IsSpace(p[0]))
  {
    var a := p + x;
    assert GoodName(a);
    forall i | 0 <= i < |p| ensures p[i] != '[' && p[i] != ']' && p[i] != ',' { assert p[i] == a[i]; }
    assert p != "" ==> p[0] == a[0];
  }

  lemma EntryExpands(nodes: seq<string>, p: string, e: string, w: nat, sorted: seq<string>)
    requires WellNamed(nodes) && EntryOf(nodes, p, e, w, sorted)
    ensures ExpandEntry(e) == NamesOf(p, sorted)
  {
    if sorted == [] {
      assert GoodName(p);
      PlainEntry(p, sorted);
    } else {
      assert sorted[0] in sorted;
      StemPlain(nodes, p, sorted[0]);
      GroupExpands(p, w, sorted);
    }
  }

  lemma DigitsNoSpace(c: char)
    requires IsDigit(c)
    ensures !IsSpace(c)
  {}

  ghost predicate Edges(e: string) {
    e != "" && !IsSpace(e[0]) && !IsSpace(e[|e| - 1])
  }

  lemma SingleEdges(p: string, x: string)
    requires Numeral(x) && (p != "" ==> !IsSpace(p[0]))
    ensures Edges(p + x)
  {
    DigitsNoSpace(x[0]);
    DigitsNoSpace(x[|x| - 1]);
    assert (p + x)[0] == (if p == "" then x[0] else p[0]) && (p + x)[|p + x| - 1] == x[|x| - 1];
  }

  lemma BracketEdges(p: string, inner: string)
    requires p != "" ==> !IsSpace(p[0])
    ensures Edges(p + "[" + inner + "]")
  {}

  lemma EntryClean(nodes: seq<string>, p: string, e: string, w: nat, sorted: seq<string>)
    requires WellNamed(nodes) && EntryOf(nodes, p, e, w, sorted)
    ensures Clean(e)
  {
    if sorted == [] {
      assert GoodName(p) && e == p;
    } else {
      assert sorted[0] in sorted && Numeral(sorted[0]);
      StemPlain(nodes, p, sorted[0]);
      if |sorted| == 1 {
        PlainEntry(p, sorted);
        SingleEdges(p, sorted[0]);
      } else {
        ManyClean(p, sorted);
      }
    }
  }

  lemma ManyClean(p: string, sorted: seq<string>)
    requires NumeralList(sorted) && |sorted| > 1 && PlainPrefix(p) && (p != "" ==> !IsSpace(p[0]))
    ensures Clean(p + Compressed(sorted))
  {
    BracketEntry(p, sorted);
    BracketEdges(p, Join(Parts(sorted[0], sorted[0], sorted[1..]), ','));
  }

  /** The names of a group are exactly the given names with that key, once each. */
  lemma GroupIsComplete(nodes: seq<string>, p: string, e: string, w: nat, sorted: seq<string>, x: string)
    requires WellNamed(nodes) && EntryOf(nodes, p, e, w, sorted)
    requires sorted != [] ==> !(p in nodes && !Numbered(p))
    ensures x in NamesOf(p, sorted) <==> x in nodes && Key(x) == p
  {
    var names := NamesOf(p, sorted);
    if x in names && sorted != [] {
      var i :| 0 <= i < |names| && names[i] == x;
      assert sorted[i] in sorted;
    }
    if x in nodes && Key(x) == p && Numbered(x) {
      assert p + Number(x) == x && Member(nodes, p, Number(x));
      var i :| 0 <= i < |sorted| && sorted[i] == Number(x);
      assert names[i] == x;
    }
  }

  lemma NamesDistinct(p: string, w: nat, sorted: seq<string>)
    requires GroupNumbers(p, w, sorted)
    ensures Distinct(NamesOf(p, sorted))
  {
    var names := NamesOf(p, sorted);
    forall i, j | 0 <= i < j < |names| ensures names[i] != names[j] {
      assert names[i] == p + sorted[i] && names[j] == p + sorted[j];
      assert Value(sorted[i]) < Value(sorted[j]);
      assert names[i][|p|..] == sorted[i] && names[j][|p|..] == sorted[j];
    }
  }

  // ---------------------------------------------------------------- all entries

  /** The entries of the first prefixes expand to exactly the names with those keys, once each. */
  ghost predicate Covers(nodes: seq<string>, keys: seq<string>, names: seq<string>) {
    Distinct(names) && forall x :: x in names <==> x in nodes && Key(x) in keys
  }

  lemma NotBoth(nodes: seq<string>, p: string, x: string)
    requires WellNamed(nodes) && Member(nodes, p, x)
    ensures !(p in nodes && !Numbered(p))
  {
    assert p + x in nodes;
  }

  lemma EntryCovers(nodes: seq<string>, p: string, e: string)
    requires WellNamed(nodes) && IsEntry(GroupsOf(nodes), p, e)
    ensures Clean(e) && Covers(nodes, [p], ExpandEntry(e))
  {
    var w, sorted := EntryExists(nodes, p, e);
    EntryExpands(nodes, p, e, w, sorted);
    EntryClean(nodes, p, e, w, sorted);
    NamesDistinct(p, w, sorted);
    if sorted != [] {
      assert sorted[0] in sorted;
      NotBoth(nodes, p, sorted[0]);
    }
    forall x ensures x in NamesOf(p, sorted) <==> x in nodes && Key(x) in [p] {
      GroupIsComplete(nodes, p, e, w, sorted, x);
    }
  }

  lemma CoversConcat(nodes: seq<string>, keys: seq<string>, key: string, a: seq<string>, b: seq<string>)
    requires Covers(nodes, keys, a) && Covers(nodes, [key], b) && key !in keys
    ensures Covers(nodes, keys + [key], a + b)
  {
    forall i, j | 0 <= i < |a| && 0 <= j < |b| ensures a[i] != b[j] {
      assert a[i] in a && b[j] in b;
    }
  }

  /** Entry `i` contributes exactly the names of its prefix. */
  ghost predicate EntryDone(nodes: seq<string>, keys: seq<string>, result: seq<string>, i: nat) {
    i < |keys| && i < |result| && Covers(nodes, [keys[i]], ExpandEntry(result[i]))
  }

  lemma {:induction false} EntriesCover(nodes: seq<string>, keys: seq<string>, result: seq<string>, n: nat)
    requires |keys| == |result| && n <= |result| && Distinct(keys)
    requires forall i: nat {:trigger EntryDone(nodes, keys, result, i)} :: i < |result| ==>
               EntryDone(nodes, keys, result, i)
    ensures Covers(nodes, keys[..n], ExpandAll(result[..n]))
  {
    if n > 0 {
      EntriesCover(nodes, keys, result, n - 1);
      EntryCoversNext(nodes, keys, result, n - 1);
    }
  }

  lemma EntryCoversNext(nodes: seq<string>, keys: seq<string>, result: seq<string>, n: nat)
    requires |keys| == |result| && n < |result| && Distinct(keys) && EntryDone(nodes, keys, result, n)
    requires Covers(nodes, keys[..n], ExpandAll(result[..n]))
    ensures Covers(nodes, keys[..n + 1], ExpandAll(result[..n + 1]))
  {
    var head, names := keys[..n], ExpandAll(result[..n]);
    PrefixNext(keys, n);
    CoversConcat(nodes, head, keys[n], names, ExpandEntry(result[n]));
    AllStep(result, n);
  }

  lemma PrefixNext(keys: seq<string>, n: nat)
    requires Distinct(keys) && n < |keys|
    ensures keys[n] !in keys[..n] && keys[..n + 1] == keys[..n] + [keys[n]]
  {}

  lemma EntriesDone(nodes: seq<string>, result: seq<string>)
    requires WellNamed(nodes) && CompactOf(nodes, result)
    ensures forall i: nat {:trigger EntryDone(nodes, Sorted(GroupsOf(nodes).Keys), result, i)} ::
              i < |result| ==> EntryDone(nodes, Sorted(GroupsOf(nodes).Keys), result, i) && Clean(result[i])
  {
    var keys := Sorted(GroupsOf(nodes).Keys);
    forall i: nat | i < |result| ensures EntryDone(nodes, keys, result, i) && Clean(result[i]) {
      EntryCovers(nodes, keys[i], result[i]);
    }
  }

  lemma PermutationOf(a: seq<string>, b: seq<string>)
    requires Distinct(a) && Distinct(b) && forall x :: x in a <==> x in b
    ensures multiset(a) == multiset(b)
  {
    forall x ensures multiset(a)[x] == multiset(b)[x] {
      DistinctCount(a, x);
      DistinctCount(b, x);
    }
  }

  lemma SortedDistinct(s: set<string>)
    ensures Distinct(Sorted(s))
  {
    var keys := Sorted(s);
    forall i, j | 0 <= i < j < |keys| ensures keys[i] != keys[j] { LessAsymmetric(keys[i], keys[j]); }
  }

  lemma KeysComplete(nodes: seq<string>, x: string)
    requires WellNamed(nodes) && x in nodes
    ensures Key(x) in Sorted(GroupsOf(nodes).Keys)
  {
    GroupsHold(nodes);
    assert NodeOk(GroupsOf(nodes), x);
  }

  lemma CoversAll(nodes: seq<string>, keys: seq<string>, names: seq<string>)
    requires Covers(nodes, keys, names) && Distinct(nodes) && forall x :: x in nodes ==> Key(x) in keys
    ensures multiset(names) == multiset(nodes)
  {
    PermutationOf(names, nodes);
  }

  lemma EntriesClean(nodes: seq<string>, result: seq<string>)
    requires WellNamed(nodes) && CompactOf(nodes, result)
    ensures forall i :: 0 <= i < |result| ==> Clean(result[i])
  {
    EntriesDone(nodes, result);
    forall i | 0 <= i < |result| ensures Clean(result[i]) {
      assert EntryDone(nodes, Sorted(GroupsOf(nodes).Keys), result, i);
    }
  }

  lemma AllKeys(nodes: seq<string>, result: seq<string>, keys: seq<string>)
    requires |keys| == |result| && Distinct(keys) && Distinct(nodes) && forall x :: x in nodes ==> Key(x) in keys
    requires forall i: nat {:trigger EntryDone(nodes, keys, result, i)} :: i < |result| ==>
               EntryDone(nodes, keys, result, i)
    ensures multiset(ExpandAll(result)) == multiset(nodes)
  {
    EntriesCover(nodes, keys, result, |result|);
    assert keys[..|result|] == keys && result[..|result|] == result;
    CoversAll(nodes, keys, ExpandAll(result));
  }

  /** Expanding the compact form gives back the names, in some order. */
  lemma ExpandCompact(nodes: seq<string>, result: seq<string>)
    requires WellNamed(nodes) && CompactOf(nodes, result)
    ensures multiset(ExpandAll(result)) == multiset(nodes)
  {
    var keys := Sorted(GroupsOf(nodes).Keys);
    SortedDistinct(GroupsOf(nodes).Keys);
    EntriesDone(nodes, result);
    forall x | x in nodes ensures Key(x) in keys { KeysComplete(nodes, x); }
    AllKeys(nodes, result, keys);
  }

  /** The printed list parses back to the names: ExpandList after Compact and a comma join is a permutation. */
  lemma RoundTrip(nodes: seq<string>, result: seq<string>)
    requires WellNamed(nodes) && CompactOf(nodes, result)
    ensures multiset(ExpandAll(Scan(Join(result, ','), "", 0))) == multiset(nodes)
  {
    ExpandCompact(nodes, result);
    EntriesClean(nodes, result);
    SplitJoined(result);
  }

  // ---------------------------------------------------------------- a function of the set of names

  lemma BothEmpty(a: seq<string>, b: seq<string>)
    requires forall x :: x in a <==> x in b
    ensures a == [] <==> b == []
  {
    if a != [] { assert a[0] in b; }
    if b != [] { assert b[0] in a; }
  }

  lemma {:induction false} RisingUnique(a: seq<string>, b: seq<string>)
    requires NumeralList(a) && NumeralList(b) && Rising(a) && Rising(b) && forall x :: x in a <==> x in b
    ensures a == b
    decreases |a|
  {
    BothEmpty(a, b);
    if a != [] {
      SameHead(a, b);
      RisingTail(a);
      RisingTail(b);
      forall x ensures x in a[1..] <==> x in b[1..] { TailElements(a, x); TailElements(b, x); }
      RisingUnique(a[1..], b[1..]);
      assert a == [a[0]] + a[1..] && b == [b[0]] + b[1..];
    }
  }

  lemma SameHead(a: seq<string>, b: seq<string>)
    requires NumeralList(a) && NumeralList(b) && Rising(a) && Rising(b) && a != [] && forall x :: x in a <==> x in b
    ensures b != [] && a[0] == b[0]
  {
    assert a[0] in b;
    var i :| 0 <= i < |b| && b[i] == a[0];
    assert b[0] in a;
    var j :| 0 <= j < |a| && a[j] == b[0];
  }

  lemma TailElements(a: seq<string>, x: string)
    requires NumeralList(a) && Rising(a) && a != []
    ensures x in a[1..] <==> x in a && x != a[0]
  {
    RisingTail(a);
    assert a == [a[0]] + a[1..];
    if x in a[1..] {
      var i :| 0 <= i < |a[1..]| && a[1..][i] == x;
    }
  }

  lemma SameEntry(nodes: seq<string>, other: seq<string>, p: string, e: string, f: string)
    requires WellNamed(nodes) && WellNamed(other) && (forall x :: x in nodes <==> x in other)
    requires IsEntry(GroupsOf(nodes), p, e) && IsEntry(GroupsOf(other), p, f)
    ensures e == f
  {
    var w, sorted := EntryExists(nodes, p, e);
    var v, sorted' := EntryExists(other, p, f);
    forall x ensures x in sorted <==> x in sorted' { assert Member(nodes, p, x) <==> Member(other, p, x); }
    RisingUnique(sorted, sorted');
  }

  lemma SameKeys(nodes: seq<string>, other: seq<string>, p: string)
    requires WellNamed(nodes) && WellNamed(other) && (forall x :: x in nodes <==> x in other)
    ensures p in GroupsOf(nodes) ==> p in GroupsOf(other)
  {
    GroupsHold(nodes);
    GroupsHold(other);
    var groups := GroupsOf(nodes);
    assert GroupOk(nodes, groups, p);
    if p in groups {
      if groups[p] == [] {
        assert NodeOk(GroupsOf(other), p);
      } else {
        var x := groups[p][0];
        assert x in groups[p] && Member(nodes, p, x);
        assert NodeOk(GroupsOf(other), p + x);
      }
    }
  }

  /** The compact form depends only on the set of names, not on their order or on how ties are sorted. */
  lemma CompactIsCanonical(nodes: seq<string>, other: seq<string>, result: seq<string>, result': seq<string>)
    requires WellNamed(nodes) && WellNamed(other) && (forall x :: x in nodes <==> x in other)
    requires CompactOf(nodes, result) && CompactOf(other, result')
    ensures result == result'
  {
    forall p ensures p in GroupsOf(nodes) <==> p in GroupsOf(other) {
      SameKeys(nodes, other, p);
      SameKeys(other, nodes, p);
    }
    assert GroupsOf(nodes).Keys == GroupsOf(other).Keys;
    var keys := Sorted(GroupsOf(nodes).Keys);
    forall i | 0 <= i < |result| ensures result[i] == result'[i] {
      SameEntry(nodes, other, keys[i], result[i], result'[i]);
    }
  }
}
