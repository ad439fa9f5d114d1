/** Expanding a compacted group gives back its names. */
module NodeRanges {
  import opened Wrappers
  import opened Numerals
  import opened NodeSyntax
  import opened NodeList
  import opened NodeCompact

  // ---------------------------------------------------------------- splitting what was joined

  lemma {:induction false} SplitAbsent(s: string, c: char)
    requires c !in s
    ensures Split(s, c) == [s]
  {
    if s != "" {
      assert s == [s[0]] + s[1..];
      SplitAbsent(s[1..], c);
    }
  }

  lemma {:induction false} SplitFirst(s: string, c: char, rest: string)
    requires c !in s
    ensures Split(s + [c] + rest, c) == [s] + Split(rest, c)
  {
    if s == "" {
      assert (s + [c] + rest)[1..] == rest;
    } else {
      assert s == [s[0]] + s[1..];
      assert (s + [c] + rest)[0] == s[0] && (s + [c] + rest)[1..] == s[1..] + [c] + rest;
      SplitFirst(s[1..], c, rest);
      assert ([s[1..]] + Split(rest, c))[1..] == Split(rest, c);
    }
  }

  lemma {:induction false} SplitJoin(parts: seq<string>, c: char)
    requires parts != [] && forall i :: 0 <= i < |parts| ==> c !in parts[i]
    ensures Split(Join(parts, c), c) == parts
  {
    if |parts| == 1 {
      SplitAbsent(parts[0], c);
    } else {
      SplitJoin(parts[1..], c);
      SplitFirst(parts[0], c, Join(parts[1..], c));
    }
  }

  lemma SplitTwo(a: string, b: string, c: char)
    requires c !in a && c !in b
    ensures Split(a + [c] + b, c) == [a, b]
  {
    SplitFirst(a, c, b);
    SplitAbsent(b, c);
  }

  // ---------------------------------------------------------------- characters of a printed group

  predicate RangeChar(c: char) {
    IsDigit(c) || c == '-'
  }

  ghost predicate RangeText(s: string) {
    s != "" && forall i :: 0 <= i < |s| ==> RangeChar(s[i])
  }

  lemma FormatText(start: string, end: string)
    requires Numeral(start) && Numeral(end)
    ensures RangeText(FormatRange(start, end))
  {}

  lemma {:induction false} PartsText(start: string, end: string, rest: seq<string>)
    requires Numeral(start) && Numeral(end) && NumeralList(rest)
    ensures Parts(start, end, rest) != [] && forall i :: 0 <= i < |Parts(start, end, rest)| ==>
              RangeText(Parts(start, end, rest)[i])
    decreases |rest|
  {
    FormatText(start, end);
    if rest != [] {
      PartsText(start, rest[0], rest[1..]);
      PartsText(rest[0], rest[0], rest[1..]);
    }
  }

  lemma {:induction false} JoinText(parts: seq<string>)
    requires forall i :: 0 <= i < |parts| ==> RangeText(parts[i])
    ensures forall i :: 0 <= i < |Join(parts, ',')| ==> RangeChar(Join(parts, ',')[i]) || Join(parts, ',')[i] == ','
  {
    if |parts| > 1 {
      JoinText(parts[1..]);
      var head, tail := parts[0], Join(parts[1..], ',');
      forall i | 0 <= i < |head + [','] + tail|
        ensures RangeChar((head + [','] + tail)[i]) || (head + [','] + tail)[i] == ','
      {
        if i > |head| { assert (head + [','] + tail)[i] == tail[i - |head| - 1]; }
      }
    }
  }

  // ---------------------------------------------------------------- parsing a printed group

  lemma ParsePlain(e: string)
    requires '[' !in e
    ensures Parse(e) == None
  {}

  lemma ParseBracketed(prefix: string, inner: string)
    requires '[' !in prefix && '\n' !in prefix && '\n' !in inner
    ensures Parse(prefix + "[" + inner + "]") == Some(Ranged(prefix, inner))
  {
    var e := prefix + "[" + inner + "]";
    assert e[|prefix|] == '[';
    var i := Index(e, '[');
    IndexAt(e, prefix);
    assert e[..i] == prefix && e[i + 1..|e| - 1] == inner;
  }

  lemma IndexAt(e: string, prefix: string)
    requires '[' !in prefix && |prefix| < |e| && e[..|prefix|] == prefix && e[|prefix|] == '['
    ensures Index(e, '[') == |prefix|
  {
    var i := Index(e, '[');
    InPrefix(e, |prefix|, i);
    InPrefix(e, i, |prefix|);
  }

  lemma InPrefix(e: string, n: nat, j: nat)
    requires n <= |e| && j < |e|
    ensures j < n ==> e[j] in e[..n]
  {
    if j < n { assert e[..n][j] == e[j]; }
  }

  // ---------------------------------------------------------------- a group of one width

  /** Numerals of one zero-pad width that fit an int, in strictly ascending order. */
  ghost predicate OneWidth(w: nat, s: string) {
    Numeral(s) && Value(s) <= MAX_INT && s == Pad(w, Value(s))
  }

  ghost predicate Uniform(w: nat, nums: seq<string>) {
    forall i :: 0 <= i < |nums| ==> OneWidth(w, nums[i])
  }

  ghost predicate Rising(nums: seq<string>)
    requires NumeralList(nums)
  {
    forall i, j :: 0 <= i < j < |nums| ==> Value(nums[i]) < Value(nums[j])
  }

  ghost predicate Above(s: string, nums: seq<string>)
    requires Numeral(s) && NumeralList(nums)
  {
    forall i :: 0 <= i < |nums| ==> Value(s) < Value(nums[i])
  }

  ghost function Prefixed(p: string, nums: seq<string>): (r: seq<string>)
    ensures |r| == |nums| && forall i :: 0 <= i < |r| ==> r[i] == p + nums[i]
  {
    seq(|nums|, i requires 0 <= i < |nums| => p + nums[i])
  }

  lemma IntIsValue(s: string)
    requires Numeral(s) && Value(s) <= MAX_INT
    ensures IntOf(s) == Value(s)
  {
    AtoiDigits(s);
  }

  lemma {:induction false} ExpandPartsConcat(p: string, a: seq<string>, b: seq<string>)
    ensures ExpandParts(p, a + b) == ExpandParts(p, a) + ExpandParts(p, b)
  {
    if b == [] {
      assert a + b == a;
    } else {
      var n := |b| - 1;
      assert (a + b)[..|a + b| - 1] == a + b[..n] && (a + b)[|a + b| - 1] == b[n];
      ExpandPartsConcat(p, a, b[..n]);
      Reassociate(ExpandParts(p, a), ExpandParts(p, b[..n]), ExpandPart(p, b[n]));
    }
  }

  lemma ExpandOne(p: string, part: string)
    ensures ExpandParts(p, [part]) == ExpandPart(p, part)
  {
    assert [part][..0] == [];
  }

  /** A printed run expands to the numbers it covers. */
  lemma RunExpands(p: string, w: nat, start: string, end: string)
    requires OneWidth(w, start) && OneWidth(w, end) && Value(start) <= Value(end)
    ensures ExpandPart(p, FormatRange(start, end)) == Range(p, |start|, Value(start), Value(end))
  {
    NoMinus(start);
    NoMinus(end);
    if start == end {
      PadOfValue(start);
    } else {
      assert (start + "-" + end)[|start|] == '-';
      SplitTwo(start, end, '-');
      DigitBytes(start);
      AtoiDigits(start);
      AtoiDigits(end);
    }
  }

  lemma RangeOne(p: string, w: nat, s: string)
    requires OneWidth(w, s)
    ensures Range(p, |s|, Value(s), Value(s)) == [p + s]
  {
    PadOfValue(s);
  }

  /** The next number of a run, printed at the width of its first. */
  lemma RangeGrows(p: string, w: nat, start: string, end: string, next: string)
    requires OneWidth(w, start) && OneWidth(w, next) && Numeral(end) && Value(start) <= Value(end)
             && Value(next) == Value(end) + 1
    ensures Range(p, |start|, Value(start), Value(next)) == Range(p, |start|, Value(start), Value(end)) + [p + next]
  {
    RangeSnoc(p, |start|, Value(start), Value(next));
    PadWidth(w, Value(start), Value(next));
  }

  lemma PrefixedStep(p: string, s: string, rest: seq<string>)
    ensures Prefixed(p, [s] + rest) == [p + s] + Prefixed(p, rest)
  {}

  /** The printed parts expand to the open run and then to all remaining numbers. */
  lemma {:induction false} PartsExpand(p: string, w: nat, start: string, end: string, rest: seq<string>)
    requires OneWidth(w, start) && OneWidth(w, end) && Value(start) <= Value(end) && Uniform(w, rest)
             && NumeralList(rest) && Rising(rest) && Above(end, rest)
    ensures ExpandParts(p, Parts(start, end, rest)) == Range(p, |start|, Value(start), Value(end)) + Prefixed(p, rest)
    decreases |rest|
  {
    if rest == [] {
      RunExpands(p, w, start, end);
      ExpandOne(p, FormatRange(start, end));
    } else {
      var next, tail := rest[0], rest[1..];
      assert rest == [next] + tail;
      NextNumber(w, start, end, rest);
      if Value(next) == Value(end) + 1 {
        PartsExpand(p, w, start, next, tail);
        LongerRun(p, w, start, end, next, tail);
      } else {
        PartsExpand(p, w, next, next, tail);
        NewRun(p, w, start, end, next, tail);
      }
    }
  }

  /** The next number, and whether the run goes on with it. */
  lemma NextNumber(w: nat, start: string, end: string, rest: seq<string>)
    requires OneWidth(w, end) && rest != [] && Uniform(w, rest) && NumeralList(rest) && Rising(rest) && Above(end, rest)
    ensures OneWidth(w, rest[0]) && Value(end) < Value(rest[0])
    ensures NumeralList(rest[1..]) && Uniform(w, rest[1..]) && Rising(rest[1..]) && Above(rest[0], rest[1..])
    ensures Parts(start, end, rest) ==
            if Value(rest[0]) == Value(end) + 1 then Parts(start, rest[0], rest[1..])
            else [FormatRange(start, end)] + Parts(rest[0], rest[0], rest[1..])
  {
    assert OneWidth(w, rest[0]);
    IntIsValue(rest[0]);
    IntIsValue(end);
    RisingTail(rest);
  }

  lemma LongerRun(p: string, w: nat, start: string, end: string, next: string, tail: seq<string>)
    requires OneWidth(w, start) && OneWidth(w, next) && Numeral(end) && Value(start) <= Value(end)
             && Value(next) == Value(end) + 1
    ensures Range(p, |start|, Value(start), Value(next)) + Prefixed(p, tail) ==
            Range(p, |start|, Value(start), Value(end)) + Prefixed(p, [next] + tail)
  {
    RangeGrows(p, w, start, end, next);
    PrefixedStep(p, next, tail);
    Reassociate(Range(p, |start|, Value(start), Value(end)), [p + next], Prefixed(p, tail));
  }

  lemma NewRun(p: string, w: nat, start: string, end: string, next: string, tail: seq<string>)
    requires OneWidth(w, start) && OneWidth(w, end) && Value(start) <= Value(end) && OneWidth(w, next)
             && NumeralList(tail)
    requires ExpandParts(p, Parts(next, next, tail)) == Range(p, |next|, Value(next), Value(next)) + Prefixed(p, tail)
    ensures ExpandParts(p, [FormatRange(start, end)] + Parts(next, next, tail)) ==
            Range(p, |start|, Value(start), Value(end)) + Prefixed(p, [next] + tail)
  {
    RunExpands(p, w, start, end);
    ExpandOne(p, FormatRange(start, end));
    RangeOne(p, w, next);
    PrefixedStep(p, next, tail);
    ExpandPartsConcat(p, [FormatRange(start, end)], Parts(next, next, tail));
  }

  lemma RisingTail(rest: seq<string>)
    requires rest != [] && NumeralList(rest) && Rising(rest)
    ensures NumeralList(rest[1..]) && Rising(rest[1..]) && Above(rest[0], rest[1..])
  {
    var tail := rest[1..];
    forall i | 0 <= i < |tail| ensures tail[i] == rest[i + 1] {}
  }

  ghost predicate PlainPrefix(p: string) {
    Plain(p) && '\n' !in p
  }

  /** Expanding the entry of a group gives exactly the names of the group, in order. */
  lemma GroupExpands(p: string, w: nat, nums: seq<string>)
    requires PlainPrefix(p) && Uniform(w, nums) && NumeralList(nums) && Rising(nums)
    ensures ExpandEntry(p + Compressed(nums)) == if nums == [] then [p] else Prefixed(p, nums)
  {
    if |nums| <= 1 {
      PlainEntry(p, nums);
    } else {
      BracketEntry(p, nums);
      AllPartsExpand(p, w, nums);
    }
  }

  lemma AllPartsExpand(p: string, w: nat, nums: seq<string>)
    requires Uniform(w, nums) && NumeralList(nums) && Rising(nums) && nums != []
    ensures NumeralList(nums[1..]) && ExpandParts(p, Parts(nums[0], nums[0], nums[1..])) == Prefixed(p, nums)
  {
    var first, rest := nums[0], nums[1..];
    assert OneWidth(w, first) && nums == [first] + rest;
    RisingTail(nums);
    PartsExpand(p, w, first, first, rest);
    RangeOne(p, w, first);
    PrefixedStep(p, first, rest);
  }

  lemma PlainEntry(p: string, nums: seq<string>)
    requires Plain(p) && NumeralList(nums) && |nums| <= 1
    ensures Plain(p + Compressed(nums))
    ensures ExpandEntry(p + Compressed(nums)) == if nums == [] then [p] else Prefixed(p, nums)
  {
    var e := p + Compressed(nums);
    forall i | 0 <= i < |e| ensures e[i] != '[' && e[i] != ']' && e[i] != ',' {
      if i >= |p| { assert e[i] == nums[0][i - |p|] && IsDigit(nums[0][i - |p|]); }
    }
    ParsePlain(e);
    assert nums == [] ==> e == p;
  }

  /** What stands between the brackets has digits, hyphens and commas only, and splits into the parts. */
  lemma InnerText(nums: seq<string>)
    requires NumeralList(nums) && |nums| > 1
    ensures var parts := Parts(nums[0], nums[0], nums[1..]);
            Unbracketed(Join(parts, ',')) && '\n' !in Join(parts, ',') && Split(Join(parts, ','), ',') == parts
  {
    var parts := Parts(nums[0], nums[0], nums[1..]);
    PartsText(nums[0], nums[0], nums[1..]);
    JoinText(parts);
    forall i | 0 <= i < |parts| ensures ',' !in parts[i] { NoComma(parts[i]); }
    SplitJoin(parts, ',');
  }

  lemma NoComma(s: string)
    requires RangeText(s)
    ensures ',' !in s
  {}

  lemma BracketEntry(p: string, nums: seq<string>)
    requires PlainPrefix(p) && NumeralList(nums) && |nums| > 1
    ensures var parts := Parts(nums[0], nums[0], nums[1..]);
            && Bracketed(p + Compressed(nums), p, Join(parts, ','))
            && ExpandEntry(p + Compressed(nums)) == ExpandParts(p, parts)
  {
    var inner := Join(Parts(nums[0], nums[0], nums[1..]), ',');
    InnerText(nums);
    BracketsExpand(p, inner);
    Brackets(p, inner);
  }

  lemma Brackets(p: string, inner: string)
    ensures p + ("[" + inner + "]") == p + "[" + inner + "]"
  {}

  lemma BracketsExpand(p: string, inner: string)
    requires PlainPrefix(p) && '\n' !in inner
    ensures ExpandEntry(p + "[" + inner + "]") == ExpandParts(p, Split(inner, ','))
  {
    ParseBracketed(p, inner);
  }
}
