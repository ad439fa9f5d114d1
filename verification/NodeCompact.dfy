/** Compacting node names into ranges (internal/cluset/cluset.go). */
module NodeCompact {
  import opened Lex
  import opened Numerals
  import opened NodeSyntax

  // ---------------------------------------------------------------- a name and its number

  /** The name without its longest trailing run of digits. */
  function Stem(name: string): (p: string)
    ensures p <= name && AllDigits(name[|p|..]) && (p == "" || !IsDigit(p[|p| - 1]))
  {
    if name == "" || !IsDigit(name[|name| - 1]) then name
    else
      var front, last := name[..|name| - 1], name[|name| - 1];
      var p := Stem(front);
      assert name[|p|..] == front[|p|..] + [last];
      p
  }

  function Number(name: string): (s: string)
    ensures AllDigits(s) && Stem(name) + s == name
  {
    name[|Stem(name)|..]
  }

  /** The name ends in a digit and its prefix stays on one line. */
  predicate Numbered(name: string) {
    Number(name) != "" && '\n' !in Stem(name)
  }

  /** The group a name belongs to. */
  function Key(name: string): string {
    if Numbered(name) then Stem(name) else name
  }

  type Groups = map<string, seq<string>>

  /** The numbers per prefix, in order of arrival; a bare name starts an empty group over. */
  function GroupsOf(nodes: seq<string>): Groups {
    if nodes == [] then map[] else Grouped(GroupsOf(nodes[..|nodes| - 1]), nodes[|nodes| - 1])
  }

  function Grouped(groups: Groups, node: string): Groups {
    if Numbered(node) then groups[Stem(node) := Lookup(groups, Stem(node)) + [Number(node)]] else groups[node := []]
  }

  function Lookup(groups: Groups, p: string): seq<string> {
    if p in groups then groups[p] else []
  }

  // ---------------------------------------------------------------- ranges

  predicate Numeral(s: string) {
    s != "" && AllDigits(s)
  }

  predicate NumeralList(nums: seq<string>) {
    forall i :: 0 <= i < |nums| ==> Numeral(nums[i])
  }

  /** The integer a numeral stands for, the largest one if it does not fit. */
  function IntOf(s: string): int
    requires Numeral(s)
  {
    NoMinus(s);
    Atoi(s)
  }

  lemma NoMinus(s: string)
    requires AllDigits(s)
    ensures '-' !in s
  {
    forall i | 0 <= i < |s| ensures s[i] != '-' { assert IsDigit(s[i]); }
  }

  function FormatRange(start: string, end: string): string {
    if start == end then start else start + "-" + end
  }

  /** The parts still to be printed: the open run from `start` to `end`, then those of the remaining numbers. */
  function Parts(start: string, end: string, rest: seq<string>): seq<string>
    requires Numeral(end) && NumeralList(rest)
    decreases |rest|
  {
    if rest == [] then [FormatRange(start, end)]
    else if IntOf(rest[0]) == IntOf(end) + 1 then Parts(start, rest[0], rest[1..])
    else [FormatRange(start, end)] + Parts(rest[0], rest[0], rest[1..])
  }

  function Compressed(nums: seq<string>): string
    requires NumeralList(nums)
  {
    if |nums| == 0 then ""
    else if |nums| == 1 then nums[0]
    else "[" + Join(Parts(nums[0], nums[0], nums[1..]), ',') + "]"
  }

  method CompressRange(nums: seq<string>) returns (s: string)
    requires NumeralList(nums)
    ensures s == Compressed(nums)
  {
    if |nums| == 0 { return ""; }
    if |nums| == 1 { return nums[0]; }
    var parts: seq<string> := [];
    var start, end := nums[0], nums[0];
    for i := 1 to |nums|
      invariant Numeral(end) && parts + Parts(start, end, nums[i..]) == Parts(nums[0], nums[0], nums[1..])
    {
      assert nums[i..][1..] == nums[i + 1..];
      if IntOf(nums[i]) == IntOf(end) + 1 {
        end := nums[i];
      } else {
        parts := parts + [FormatRange(start, end)];
        start, end := nums[i], nums[i];
      }
    }
    parts := parts + [FormatRange(start, end)];
    return "[" + Join(parts, ',') + "]";
  }

  // ---------------------------------------------------------------- sorting

  predicate ByInt(nums: seq<string>)
    requires NumeralList(nums)
  {
    forall i, j :: 0 <= i < j < |nums| ==> IntOf(nums[i]) <= IntOf(nums[j])
  }

  /** Some order by value; numerals of equal value may come in any order. */
  ghost predicate SortedOf(nums: seq<string>, sorted: seq<string>) {
    multiset(sorted) == multiset(nums) && NumeralList(sorted) && ByInt(sorted)
  }

  /** Where the numeral goes: after all that are not larger. */
  method SlotOf(sorted: seq<string>, s: string) returns (i: nat)
    requires NumeralList(sorted) && ByInt(sorted) && Numeral(s)
    ensures i <= |sorted| && (i > 0 ==> IntOf(sorted[i - 1]) <= IntOf(s))
    ensures i < |sorted| ==> IntOf(sorted[i]) > IntOf(s)
  {
    i := |sorted|;
    while i > 0 && IntOf(sorted[i - 1]) > IntOf(s)
      invariant i <= |sorted| && (i < |sorted| ==> IntOf(sorted[i]) > IntOf(s))
    {
      i := i - 1;
    }
  }

  method Insert(sorted: seq<string>, s: string) returns (r: seq<string>)
    requires NumeralList(sorted) && ByInt(sorted) && Numeral(s)
    ensures NumeralList(r) && ByInt(r) && multiset(r) == multiset(sorted + [s])
  {
    var i := SlotOf(sorted, s);
    Inserted(sorted, i, s);
    r := InsertAt(sorted, i, s);
  }

  function InsertAt(sorted: seq<string>, i: nat, s: string): (r: seq<string>)
    requires i <= |sorted|
    ensures |r| == |sorted| + 1
    ensures forall j :: 0 <= j < |r| ==> r[j] == if j < i then sorted[j] else if j == i then s else sorted[j - 1]
  {
    sorted[..i] + [s] + sorted[i..]
  }

  lemma InsertedElements(sorted: seq<string>, i: nat, s: string)
    requires i <= |sorted|
    ensures multiset(InsertAt(sorted, i, s)) == multiset(sorted + [s])
  {
    assert sorted == sorted[..i] + sorted[i..];
  }

  lemma InsertedOrder(sorted: seq<string>, i: nat, s: string, j: nat, k: nat)
    requires NumeralList(sorted) && ByInt(sorted) && Numeral(s) && i <= |sorted| && NumeralList(InsertAt(sorted, i, s))
    requires i > 0 ==> IntOf(sorted[i - 1]) <= IntOf(s)
    requires i < |sorted| ==> IntOf(sorted[i]) > IntOf(s)
    requires j < k <= |sorted|
    ensures IntOf(InsertAt(sorted, i, s)[j]) <= IntOf(InsertAt(sorted, i, s)[k])
  {
    if k == i {
      assert j < i - 1 ==> IntOf(sorted[j]) <= IntOf(sorted[i - 1]);
    } else if j == i {
      assert i < k - 1 ==> IntOf(sorted[i]) <= IntOf(sorted[k - 1]);
    }
  }

  lemma Inserted(sorted: seq<string>, i: nat, s: string)
    requires NumeralList(sorted) && ByInt(sorted) && Numeral(s) && i <= |sorted|
    requires i > 0 ==> IntOf(sorted[i - 1]) <= IntOf(s)
    requires i < |sorted| ==> IntOf(sorted[i]) > IntOf(s)
    ensures var r := InsertAt(sorted, i, s); NumeralList(r) && ByInt(r) && multiset(r) == multiset(sorted + [s])
  {
    var r := InsertAt(sorted, i, s);
    assert NumeralList(r);
    forall j, k | 0 <= j < k < |r| ensures IntOf(r[j]) <= IntOf(r[k]) {
      InsertedOrder(sorted, i, s, j, k);
    }
    InsertedElements(sorted, i, s);
  }

  method SortNumbers(nums: seq<string>) returns (sorted: seq<string>)
    requires NumeralList(nums)
    ensures SortedOf(nums, sorted)
  {
    sorted := [];
    for i := 0 to |nums|
      invariant SortedOf(nums[..i], sorted)
    {
      assert nums[..i + 1] == nums[..i] + [nums[i]];
      sorted := Insert(sorted, nums[i]);
    }
    assert nums[..|nums|] == nums;
  }

  // ---------------------------------------------------------------- Compact

  ghost predicate IsEntry(groups: Groups, p: string, e: string) {
    p in groups && exists sorted :: SortedOf(groups[p], sorted) && e == p + Compressed(sorted)
  }

  /** One entry per group, in order of the prefixes. */
  ghost predicate CompactOf(nodes: seq<string>, result: seq<string>) {
    var groups := GroupsOf(nodes);
    var prefixes := Sorted(groups.Keys);
    |result| == |prefixes| && forall i :: 0 <= i < |result| ==> IsEntry(groups, prefixes[i], result[i])
  }

  ghost predicate AllNumerals(groups: Groups) {
    forall p :: p in groups ==> NumeralList(groups[p])
  }

  lemma GroupedNumerals(groups: Groups, node: string)
    requires AllNumerals(groups)
    ensures AllNumerals(Grouped(groups, node))
  {}

  method GroupNodes(nodes: seq<string>) returns (groups: Groups)
    ensures groups == GroupsOf(nodes) && AllNumerals(groups)
  {
    groups := map[];
    for i := 0 to |nodes|
      invariant groups == GroupsOf(nodes[..i]) && AllNumerals(groups)
    {
      assert nodes[..i + 1][..i] == nodes[..i];
      GroupedNumerals(groups, nodes[i]);
      var node := nodes[i];
      if Numbered(node) {
        var prefix, num := Stem(node), Number(node);
        groups := groups[prefix := Lookup(groups, prefix) + [num]];
      } else {
        groups := groups[node := []];
      }
    }
    assert nodes[..|nodes|] == nodes;
  }

  method Compact(nodes: seq<string>) returns (result: seq<string>)
    ensures CompactOf(nodes, result)
  {
    var groups := GroupNodes(nodes);
    var prefixes := Sorted(groups.Keys);
    result := FormatGroups(groups, prefixes);
    forall i | 0 <= i < |result|
      ensures IsEntry(groups, prefixes[i], result[i])
    {
      assert EntryAt(groups, prefixes, result, i);
    }
  }

  ghost predicate EntryAt(groups: Groups, prefixes: seq<string>, result: seq<string>, i: nat) {
    i < |prefixes| && i < |result| && IsEntry(groups, prefixes[i], result[i])
  }

  method FormatGroups(groups: Groups, prefixes: seq<string>) returns (result: seq<string>)
    requires AllNumerals(groups) && forall i :: 0 <= i < |prefixes| ==> prefixes[i] in groups
    ensures |result| == |prefixes|
    ensures forall j: nat {:trigger EntryAt(groups, prefixes, result, j)} :: j < |result| ==>
              EntryAt(groups, prefixes, result, j)
  {
    result := [];
    for i := 0 to |prefixes|
      invariant |result| == i
      invariant forall j: nat {:trigger EntryAt(groups, prefixes, result, j)} :: j < i ==>
                  EntryAt(groups, prefixes, result, j)
    {
      var entry := FormatGroup(groups, prefixes[i]);
      EntriesGrow(groups, prefixes, result, entry);
      result := result + [entry];
    }
  }

  lemma EntriesGrow(groups: Groups, prefixes: seq<string>, result: seq<string>, entry: string)
    requires |result| < |prefixes| && IsEntry(groups, prefixes[|result|], entry)
    requires forall j: nat {:trigger EntryAt(groups, prefixes, result, j)} :: j < |result| ==>
               EntryAt(groups, prefixes, result, j)
    ensures forall j: nat {:trigger EntryAt(groups, prefixes, result + [entry], j)} :: j <= |result| ==>
              EntryAt(groups, prefixes, result + [entry], j)
  {
    forall j: nat | j <= |result| ensures EntryAt(groups, prefixes, result + [entry], j) {
      if j < |result| { assert EntryAt(groups, prefixes, result, j); }
    }
  }

  method FormatGroup(groups: Groups, prefix: string) returns (e: string)
    requires AllNumerals(groups) && prefix in groups
    ensures IsEntry(groups, prefix, e)
  {
    var numbers := SortNumbers(groups[prefix]);
    var compressed := CompressRange(numbers);
    e := prefix + compressed;
  }
}
