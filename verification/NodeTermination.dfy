/** When expanding a compacted list comes to an end: ranges are counted up on machine integers. */
module NodeTermination {
  import opened Lex
  import opened Numerals
  import opened NodeSyntax
  import opened NodeList
  import opened NodeCompact
  import opened NodeRanges
  import opened NodeGroups
  import opened NodeRoundTrip

  ghost predicate Has(nums: seq<string>, v: int)
    requires NumeralList(nums)
  {
    exists i :: 0 <= i < |nums| && Value(nums[i]) == v
  }

  ghost predicate SomeEndless(parts: seq<string>) {
    exists i :: 0 <= i < |parts| && Endless(parts[i])
  }

  lemma RunEndless(w: nat, start: string, end: string)
    requires OneWidth(w, start) && OneWidth(w, end) && Value(start) <= Value(end)
    ensures Endless(FormatRange(start, end)) <==> Value(start) < Value(end) && Value(end) == MAX_INT
  {
    NoMinus(start);
    NoMinus(end);
    EndlessIff(FormatRange(start, end));
    if start != end {
      assert (start + "-" + end)[|start|] == '-';
      SplitTwo(start, end, '-');
      AtoiDigits(end);
    }
  }

  lemma HasStep(s: string, rest: seq<string>, v: int)
    requires Numeral(s) && NumeralList(rest)
    ensures Has([s] + rest, v) <==> Value(s) == v || Has(rest, v)
  {
    var all := [s] + rest;
    if Has(rest, v) {
      var i :| 0 <= i < |rest| && Value(rest[i]) == v;
      assert all[i + 1] == rest[i];
    }
    assert all[0] == s;
    if Has(all, v) {
      var i :| 0 <= i < |all| && Value(all[i]) == v;
      assert i > 0 ==> all[i] == rest[i - 1];
    }
  }

  lemma EndlessStep(part: string, rest: seq<string>)
    ensures SomeEndless([part] + rest) <==> Endless(part) || SomeEndless(rest)
  {
    var all := [part] + rest;
    if SomeEndless(rest) {
      var i :| 0 <= i < |rest| && Endless(rest[i]);
      assert all[i + 1] == rest[i];
    }
    assert all[0] == part;
  }

  /** A run that reaches the largest integer: the open one, or one among the remaining numbers. */
  ghost predicate ReachesTop(start: string, end: string, rest: seq<string>)
    requires Numeral(start) && Numeral(end) && NumeralList(rest)
  {
    || (Value(start) < Value(end) && Value(end) == MAX_INT)
    || (Has(rest, MAX_INT) && (Value(end) == MAX_INT - 1 || Has(rest, MAX_INT - 1)))
  }

  lemma AboveTop(s: string, nums: seq<string>, w: nat, v: int)
    requires Numeral(s) && NumeralList(nums) && Uniform(w, nums) && Above(s, nums)
    ensures Has(nums, v) ==> Value(s) < v <= MAX_INT
  {
    if Has(nums, v) {
      var i :| 0 <= i < |nums| && Value(nums[i]) == v;
      assert OneWidth(w, nums[i]);
    }
  }

  lemma {:induction false} PartsEndless(w: nat, start: string, end: string, rest: seq<string>)
    requires OneWidth(w, start) && OneWidth(w, end) && Value(start) <= Value(end) && Uniform(w, rest)
             && NumeralList(rest) && Rising(rest) && Above(end, rest)
    ensures SomeEndless(Parts(start, end, rest)) <==> ReachesTop(start, end, rest)
    decreases |rest|
  {
    if rest == [] {
      LastRunEndless(w, start, end);
    } else {
      var next, tail := rest[0], rest[1..];
      assert rest == [next] + tail;
      NextNumber(w, start, end, rest);
      if Value(next) == Value(end) + 1 {
        PartsEndless(w, start, next, tail);
        SameRunTop(w, start, end, next, tail);
      } else {
        PartsEndless(w, next, next, tail);
        NewRunEndless(w, start, end, next, tail, Parts(next, next, tail));
      }
    }
  }

  lemma LastRunEndless(w: nat, start: string, end: string)
    requires OneWidth(w, start) && OneWidth(w, end) && Value(start) <= Value(end)
    ensures SomeEndless([FormatRange(start, end)]) <==> ReachesTop(start, end, [])
  {
    var run := FormatRange(start, end);
    RunEndless(w, start, end);
    EndlessStep(run, []);
    assert [run] + [] == [run];
  }

  lemma NewRunEndless(w: nat, start: string, end: string, next: string, tail: seq<string>, parts: seq<string>)
    requires OneWidth(w, start) && OneWidth(w, end) && OneWidth(w, next) && Uniform(w, tail) && NumeralList(tail)
    requires Value(start) <= Value(end) && Value(end) + 1 < Value(next) && Above(next, tail)
    requires SomeEndless(parts) <==> ReachesTop(next, next, tail)
    ensures SomeEndless([FormatRange(start, end)] + parts) <==> ReachesTop(start, end, [next] + tail)
  {
    RunEndless(w, start, end);
    NewRunTop(w, start, end, next, tail);
    EndlessStep(FormatRange(start, end), parts);
  }

  lemma SameRunTop(w: nat, start: string, end: string, next: string, tail: seq<string>)
    requires Numeral(start) && Numeral(end) && OneWidth(w, next) && Uniform(w, tail) && NumeralList(tail)
             && Above(next, tail)
    requires Value(start) <= Value(end) && Value(next) == Value(end) + 1
    ensures ReachesTop(start, next, tail) <==> ReachesTop(start, end, [next] + tail)
  {
    HasStep(next, tail, MAX_INT);
    HasStep(next, tail, MAX_INT - 1);
    AboveTop(next, tail, w, MAX_INT);
    AboveTop(next, tail, w, MAX_INT - 1);
  }

  lemma NewRunTop(w: nat, start: string, end: string, next: string, tail: seq<string>)
    requires Numeral(start) && Numeral(end) && OneWidth(w, next) && Uniform(w, tail) && NumeralList(tail)
             && Above(next, tail)
    requires Value(end) + 1 < Value(next)
    ensures ReachesTop(next, next, tail) <==> ReachesTop(start, end, [next] + tail)
    ensures Value(end) < MAX_INT
  {
    HasStep(next, tail, MAX_INT);
    HasStep(next, tail, MAX_INT - 1);
    AboveTop(next, tail, w, MAX_INT);
    AboveTop(next, tail, w, MAX_INT - 1);
  }

  ghost predicate TopPair(nums: seq<string>)
    requires NumeralList(nums)
  {
    Has(nums, MAX_INT - 1) && Has(nums, MAX_INT)
  }

  lemma GroupTerminates(p: string, w: nat, nums: seq<string>)
    requires PlainPrefix(p) && Uniform(w, nums) && NumeralList(nums) && Rising(nums) && |nums| > 1
    ensures Terminates(p + Compressed(nums)) <==> !TopPair(nums)
  {
    var parts := Parts(nums[0], nums[0], nums[1..]);
    assert OneWidth(w, nums[0]) && nums == [nums[0]] + nums[1..];
    RisingTail(nums);
    PartsEndless(w, nums[0], nums[0], nums[1..]);
    HasStep(nums[0], nums[1..], MAX_INT);
    HasStep(nums[0], nums[1..], MAX_INT - 1);
    AboveTop(nums[0], nums[1..], w, MAX_INT);
    AboveTop(nums[0], nums[1..], w, MAX_INT - 1);
    InnerTerminates(p, nums);
  }

  lemma InnerTerminates(p: string, nums: seq<string>)
    requires PlainPrefix(p) && NumeralList(nums) && |nums| > 1
    ensures Terminates(p + Compressed(nums)) <==> !SomeEndless(Parts(nums[0], nums[0], nums[1..]))
  {
    var inner := Join(Parts(nums[0], nums[0], nums[1..]), ',');
    InnerText(nums);
    ParseBracketed(p, inner);
    Brackets(p, inner);
  }

  /** Two names with one prefix are numbered with the two largest integers. */
  ghost predicate TopNames(nodes: seq<string>, p: string) {
    && (exists x :: Member(nodes, p, x) && Value(Number(p + x)) == MAX_INT - 1)
    && (exists x :: Member(nodes, p, x) && Value(Number(p + x)) == MAX_INT)
  }

  lemma HasMember(nodes: seq<string>, p: string, e: string, w: nat, sorted: seq<string>, v: int)
    requires EntryOf(nodes, p, e, w, sorted)
    ensures Has(sorted, v) <==> exists x :: Member(nodes, p, x) && Value(Number(p + x)) == v
  {
    if Has(sorted, v) {
      var i :| 0 <= i < |sorted| && Value(sorted[i]) == v;
      assert sorted[i] in sorted;
      MemberNumber(nodes, p, sorted[i]);
    }
    if x :| Member(nodes, p, x) && Value(Number(p + x)) == v {
      MemberNumber(nodes, p, x);
      var i :| 0 <= i < |sorted| && sorted[i] == x;
    }
  }

  lemma FewTerminate(p: string, w: nat, sorted: seq<string>)
    requires Plain(p) && GroupNumbers(p, w, sorted) && |sorted| <= 1
    ensures Terminates(p + Compressed(sorted)) && !TopPair(sorted)
  {
    PlainEntry(p, sorted);
    ParsePlain(p + Compressed(sorted));
  }

  lemma TopOfEntry(nodes: seq<string>, p: string, e: string, w: nat, sorted: seq<string>)
    requires EntryOf(nodes, p, e, w, sorted)
    ensures TopPair(sorted) <==> TopNames(nodes, p)
  {
    HasMember(nodes, p, e, w, sorted, MAX_INT);
    HasMember(nodes, p, e, w, sorted, MAX_INT - 1);
  }

  lemma EntryEnds(nodes: seq<string>, p: string, e: string, w: nat, sorted: seq<string>)
    requires WellNamed(nodes) && EntryOf(nodes, p, e, w, sorted)
    ensures Terminates(e) <==> !TopPair(sorted)
  {
    if sorted == [] {
      assert GoodName(p);
      FewTerminate(p, w, sorted);
    } else {
      assert sorted[0] in sorted;
      StemPlain(nodes, p, sorted[0]);
      if |sorted| == 1 { FewTerminate(p, w, sorted); } else { GroupTerminates(p, w, sorted); }
    }
  }

  /** Expanding the entry of a prefix ends unless two of its names carry the two largest integers. */
  lemma EntryTerminates(nodes: seq<string>, p: string, e: string)
    requires WellNamed(nodes) && IsEntry(GroupsOf(nodes), p, e)
    ensures Terminates(e) <==> !TopNames(nodes, p)
  {
    var w, sorted := EntryExists(nodes, p, e);
    EntryEnds(nodes, p, e, w, sorted);
    TopOfEntry(nodes, p, e, w, sorted);
  }

  lemma TopKey(nodes: seq<string>, p: string)
    requires WellNamed(nodes) && TopNames(nodes, p)
    ensures p in Sorted(GroupsOf(nodes).Keys)
  {
    var x :| Member(nodes, p, x) && Value(Number(p + x)) == MAX_INT;
    KeysComplete(nodes, p + x);
  }

  /** Expand ends on a compacted list exactly when no prefix has names numbered with both of the two largest
      integers. */
  lemma ExpandEnds(nodes: seq<string>, result: seq<string>)
    requires WellNamed(nodes) && CompactOf(nodes, result)
    ensures (forall i :: 0 <= i < |result| ==> Terminates(result[i])) <==> !exists p :: TopNames(nodes, p)
  {
    var keys := Sorted(GroupsOf(nodes).Keys);
    forall i | 0 <= i < |result| ensures Terminates(result[i]) <==> !TopNames(nodes, keys[i]) {
      EntryTerminates(nodes, keys[i], result[i]);
    }
    if p :| TopNames(nodes, p) {
      TopKey(nodes, p);
      var i :| 0 <= i < |keys| && keys[i] == p;
    }
  }

  /** A range up to the largest integer is never left by Expand. */
  lemma TopRangeNeverEnds()
    ensures !Terminates("n" + "[" + (Pad(1, MAX_INT - 1) + "-" + Pad(1, MAX_INT)) + "]")
  {
    var start, end := Pad(1, MAX_INT - 1), Pad(1, MAX_INT);
    PadValue(1, MAX_INT - 1);
    PadValue(1, MAX_INT);
    RunEndless(1, start, end);
    FormatText(start, end);
    NoComma(FormatRange(start, end));
    LoneRange(FormatRange(start, end));
  }

  lemma LoneRange(part: string)
    requires RangeText(part) && ',' !in part && Endless(part)
    ensures !Terminates("n" + "[" + part + "]")
  {
    SplitAbsent(part, ',');
    ParseBracketed("n", part);
    assert Split(part, ',')[0] == part;
  }

  /** Splitting and expanding a list, as far as that ends. */
  method ExpandList(list: string) returns (names: seq<string>)
    requires forall i :: 0 <= i < |Scan(list, "", 0)| ==> Terminates(Scan(list, "", 0)[i])
    ensures names == ExpandAll(Scan(list, "", 0))
  {
    var entries := SplitList(list);
    names := Expand(entries);
  }

  /** The round trip as it runs: compacting, joining with commas, splitting and expanding returns the names, in some
      order. */
  method CompactThenExpand(nodes: seq<string>) returns (list: string, names: seq<string>)
    requires WellNamed(nodes) && !exists p :: TopNames(nodes, p)
    ensures multiset(names) == multiset(nodes)
    ensures exists entries :: CompactOf(nodes, entries) && list == Join(entries, ',')
  {
    var entries := Compact(nodes);
    list := Join(entries, ',');
    JoinedEnds(nodes, entries);
    RoundTrip(nodes, entries);
    names := ExpandList(list);
  }

  lemma JoinedEnds(nodes: seq<string>, entries: seq<string>)
    requires WellNamed(nodes) && CompactOf(nodes, entries) && !exists p :: TopNames(nodes, p)
    ensures Scan(Join(entries, ','), "", 0) == entries && forall i :: 0 <= i < |entries| ==> Terminates(entries[i])
  {
    EntriesClean(nodes, entries);
    SplitJoined(entries);
    ExpandEnds(nodes, entries);
  }
}
