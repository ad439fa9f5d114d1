/** Expanding node-set entries such as n[01-03,7] (internal/cluset/cluset.go). */
module NodeSyntax {
  import opened Wrappers
  import opened Numerals

  // ---------------------------------------------------------------- strings

  function Split(s: string, c: char): (r: seq<string>)
    ensures |r| >= 1 && (c in s ==> |r| >= 2)
    ensures forall i :: 0 <= i < |r| ==> c !in r[i]
  {
    if s == "" then [""]
    else
      var rest := Split(s[1..], c);
      if s[0] == c then [""] + rest else [[s[0]] + rest[0]] + rest[1..]
  }

  function Join(parts: seq<string>, c: char): string {
    if parts == [] then ""
    else if |parts| == 1 then parts[0]
    else parts[0] + [c] + Join(parts[1..], c)
  }

  function Index(s: string, c: char): (i: nat)
    requires c in s
    ensures i < |s| && s[i] == c && c !in s[..i]
  {
    if s[0] == c then 0
    else
      assert s == [s[0]] + s[1..];
      var i := Index(s[1..], c);
      assert s[..i + 1] == [s[0]] + s[1..][..i];
      i + 1
  }

  /** An entry with a bracketed part: what precedes the first `[`, and what stands between it and the final `]`. */
  datatype Ranged = Ranged(prefix: string, inner: string)

  function Parse(entry: string): (r: Option<Ranged>)
    ensures r.Some? ==> entry == r.value.prefix + "[" + r.value.inner + "]"
  {
    if '\n' !in entry && '[' in entry && entry[|entry| - 1] == ']' then
      var i := Index(entry, '[');
      Some(Ranged(entry[..i], entry[i + 1..|entry| - 1]))
    else None
  }

  // ---------------------------------------------------------------- the expansion, as a function

  function Range(prefix: string, width: nat, lo: nat, hi: int): (r: seq<string>)
    ensures |r| == if lo <= hi then hi - lo + 1 else 0
    decreases hi - lo
  {
    if lo > hi then [] else [prefix + Pad(width, lo)] + Range(prefix, width, lo + 1, hi)
  }

  function ExpandPart(prefix: string, part: string): seq<string> {
    if '-' in part then
      var bounds := Split(part, '-');
      Range(prefix, ByteLength(bounds[0]), Atoi(bounds[0]), Atoi(bounds[1]))
    else [prefix + part]
  }

  function ExpandParts(prefix: string, parts: seq<string>): seq<string> {
    if parts == [] then [] else ExpandParts(prefix, parts[..|parts| - 1]) + ExpandPart(prefix, parts[|parts| - 1])
  }

  function ExpandEntry(entry: string): seq<string> {
    match Parse(entry)
    case Some(e) => ExpandParts(e.prefix, Split(e.inner, ','))
    case None => [entry]
  }

  function ExpandAll(entries: seq<string>): seq<string> {
    if entries == [] then [] else ExpandAll(entries[..|entries| - 1]) + ExpandEntry(entries[|entries| - 1])
  }

  // ---------------------------------------------------------------- Expand

  /** The counter of the range loop, `i++` on 64 bits. */
  function Increment(i: int64): int64 {
    if i as int == MAX_INT then -0x8000_0000_0000_0000 else i + 1
  }

  /** The counter after `n` rounds that start at `lo`. */
  function Counter(lo: int64, n: nat): int64 {
    if n == 0 then lo else Increment(Counter(lo, n - 1))
  }

  /** `for i := lo; i <= hi; i++` is left: after some number of rounds its condition fails. */
  ghost predicate Left(lo: int64, hi: int64) {
    exists n: nat :: Counter(lo, n) > hi
  }

  lemma {:induction false} CounterAdds(lo: int64, n: nat)
    requires lo as int + n <= MAX_INT
    ensures Counter(lo, n) as int == lo as int + n
  {
    if n > 0 { CounterAdds(lo, n - 1); }
  }

  /** The range loop is left exactly when its upper bound is not the largest integer: that one the counter never
      passes. */
  lemma LeftIff(lo: int64, hi: int64)
    ensures Left(lo, hi) <==> hi as int != MAX_INT
  {
    if hi as int != MAX_INT {
      var n: nat := if lo > hi then 0 else (hi as int - lo as int) + 1;
      CounterAdds(lo, n);
      assert Counter(lo, n) > hi;
    }
  }

  /** The part is a range whose loop is never left. */
  ghost predicate Endless(part: string) {
    '-' in part && !Left(Atoi(Split(part, '-')[0]) as int64, Atoi(Split(part, '-')[1]) as int64)
  }

  /** Every range loop of the entry is left. */
  ghost predicate Terminates(entry: string) {
    match Parse(entry)
    case Some(e) => forall i :: 0 <= i < |Split(e.inner, ',')| ==> !Endless(Split(e.inner, ',')[i])
    case None => true
  }

  lemma EndlessIff(part: string)
    ensures Endless(part) <==> '-' in part && Atoi(Split(part, '-')[1]) == MAX_INT
  {
    if '-' in part {
      LeftIff(Atoi(Split(part, '-')[0]) as int64, Atoi(Split(part, '-')[1]) as int64);
    }
  }

  lemma {:induction false} RangeSnoc(prefix: string, width: nat, lo: nat, hi: nat)
    requires lo <= hi
    ensures Range(prefix, width, lo, hi) == Range(prefix, width, lo, hi - 1) + [prefix + Pad(width, hi)]
    decreases hi - lo
  {
    if lo < hi { RangeSnoc(prefix, width, lo + 1, hi); }
  }

  lemma PartsStep(prefix: string, parts: seq<string>, i: nat)
    requires i < |parts|
    ensures ExpandParts(prefix, parts[..i + 1]) == ExpandParts(prefix, parts[..i]) + ExpandPart(prefix, parts[i])
  {
    assert parts[..i + 1][..i] == parts[..i];
  }

  lemma AllStep(entries: seq<string>, i: nat)
    requires i < |entries|
    ensures ExpandAll(entries[..i + 1]) == ExpandAll(entries[..i]) + ExpandEntry(entries[i])
  {
    assert entries[..i + 1][..i] == entries[..i];
  }

  method AppendRange(result: seq<string>, prefix: string, width: nat, lo: int64, hi: int64) returns (r: seq<string>)
    requires lo >= 0 && Left(lo, hi)
    ensures r == result + Range(prefix, width, lo as nat, hi as int)
  {
    LeftIff(lo, hi);
    r := result;
    var i := lo;
    while i <= hi
      invariant lo <= i && (i <= hi || i == if lo <= hi then hi + 1 else lo)
      invariant r == result + Range(prefix, width, lo as nat, i as int - 1)
      decreases hi as int - i as int
    {
      RangeSnoc(prefix, width, lo as nat, i as nat);
      r := r + [prefix + Pad(width, i as nat)];
      i := Increment(i);
    }
  }

  method AppendPart(result: seq<string>, prefix: string, part: string) returns (r: seq<string>)
    requires !Endless(part)
    ensures r == result + ExpandPart(prefix, part)
  {
    if '-' in part {
      var bounds := Split(part, '-');
      r := AppendRange(result, prefix, ByteLength(bounds[0]), Atoi(bounds[0]) as int64, Atoi(bounds[1]) as int64);
    } else {
      r := result + [prefix + part];
    }
  }

  method AppendParts(result: seq<string>, prefix: string, parts: seq<string>) returns (r: seq<string>)
    requires forall i :: 0 <= i < |parts| ==> !Endless(parts[i])
    ensures r == result + ExpandParts(prefix, parts)
  {
    r := result;
    for i := 0 to |parts|
      invariant r == result + ExpandParts(prefix, parts[..i])
    {
      PartsStep(prefix, parts, i);
      Reassociate(result, ExpandParts(prefix, parts[..i]), ExpandPart(prefix, parts[i]));
      r := AppendPart(r, prefix, parts[i]);
    }
    assert parts[..|parts|] == parts;
  }

  method Expand(entries: seq<string>) returns (result: seq<string>)
    requires forall i :: 0 <= i < |entries| ==> Terminates(entries[i])
    ensures result == ExpandAll(entries)
  {
    result := [];
    for n := 0 to |entries|
      invariant result == ExpandAll(entries[..n])
    {
      AllStep(entries, n);
      var entry := entries[n];
      match Parse(entry) {
        case Some(e) => result := AppendParts(result, e.prefix, Split(e.inner, ','));
        case None => result := result + [entry];
      }
    }
    assert entries[..|entries|] == entries;
  }

  // ---------------------------------------------------------------- ExpandWithLimit

  /** How many names may be returned: none are refused for a limit below zero, but none can be added either. */
  function Allowed(limit: int64): nat {
    if limit > 0 then limit as nat else 0
  }

  /** What is still within the limit goes on; anything more is an error. */
  ghost predicate Limited(limit: int64, wanted: seq<string>, r: Option<seq<string>>) {
    if |wanted| <= Allowed(limit) then r == Some(wanted) else r == None
  }

  method AppendRangeLimited(limit: int64, result: seq<string>, prefix: string, width: nat, lo: int64, hi: int64)
      returns (r: Option<seq<string>>)
    requires lo >= 0 && hi >= 0 && |result| <= Allowed(limit)
    ensures Limited(limit, result + Range(prefix, width, lo as nat, hi as int), r)
  {
    if hi >= lo && hi - lo >= limit - |result| as int64 { return None; }
    var all := result;
    var i := lo;
    while i <= hi
      invariant lo <= i && if lo <= hi then i <= hi else i == lo
      invariant all == result + Range(prefix, width, lo as nat, i as int - 1)
      decreases hi as int - i as int
    {
      RangeSnoc(prefix, width, lo as nat, i as nat);
      all := all + [prefix + Pad(width, i as nat)];
      if i == hi { break; }
      i := i + 1;
    }
    assert lo > hi ==> all == result + [];
    assert all == result + Range(prefix, width, lo as nat, hi as int);
    return Some(all);
  }

  method AppendPartLimited(limit: int64, result: seq<string>, prefix: string, part: string)
      returns (r: Option<seq<string>>)
    requires |result| <= Allowed(limit)
    ensures Limited(limit, result + ExpandPart(prefix, part), r)
  {
    if '-' in part {
      var bounds := Split(part, '-');
      r := AppendRangeLimited(limit, result, prefix, ByteLength(bounds[0]), Atoi(bounds[0]) as int64,
                              Atoi(bounds[1]) as int64);
    } else {
      r := AppendOne(limit, result, prefix + part);
    }
  }

  method AppendOne(limit: int64, result: seq<string>, name: string) returns (r: Option<seq<string>>)
    requires |result| <= Allowed(limit)
    ensures Limited(limit, result + [name], r)
  {
    var all := result + [name];
    if |all| > limit as int { return None; }
    return Some(all);
  }

  method AppendPartsLimited(limit: int64, result: seq<string>, prefix: string, parts: seq<string>)
      returns (r: Option<seq<string>>)
    requires |result| <= Allowed(limit)
    ensures Limited(limit, result + ExpandParts(prefix, parts), r)
  {
    r := Some(result);
    assert result + [] == result;
    for i := 0 to |parts|
      invariant r.Some? && Limited(limit, result + ExpandParts(prefix, parts[..i]), r)
    {
      PartsStep(prefix, parts, i);
      Reassociate(result, ExpandParts(prefix, parts[..i]), ExpandPart(prefix, parts[i]));
      r := AppendPartLimited(limit, r.value, prefix, parts[i]);
      if r.None? {
        PartsPrefix(prefix, parts, i + 1);
        return;
      }
    }
    assert parts[..|parts|] == parts;
  }

  lemma {:induction false} PartsPrefix(prefix: string, parts: seq<string>, i: nat)
    requires i <= |parts|
    ensures |ExpandParts(prefix, parts[..i])| <= |ExpandParts(prefix, parts)|
    decreases |parts| - i
  {
    if i < |parts| {
      PartsStep(prefix, parts, i);
      PartsPrefix(prefix, parts, i + 1);
    } else {
      assert parts[..i] == parts;
    }
  }

  lemma {:induction false} AllPrefix(entries: seq<string>, i: nat)
    requires i <= |entries|
    ensures |ExpandAll(entries[..i])| <= |ExpandAll(entries)|
    decreases |entries| - i
  {
    if i < |entries| {
      AllStep(entries, i);
      AllPrefix(entries, i + 1);
    } else {
      assert entries[..i] == entries;
    }
  }

  method AppendEntryLimited(limit: int64, result: seq<string>, entry: string) returns (r: Option<seq<string>>)
    requires |result| <= Allowed(limit)
    ensures Limited(limit, result + ExpandEntry(entry), r)
  {
    match Parse(entry) {
      case Some(e) => r := AppendPartsLimited(limit, result, e.prefix, Split(e.inner, ','));
      case None => r := AppendOne(limit, result, entry);
    }
  }

  /** The whole expansion when it has at most `limit` names, an error otherwise; on machine integers, for every
      input. */
  method ExpandWithLimit(entries: seq<string>, limit: int64) returns (r: Option<seq<string>>)
    ensures r == if |ExpandAll(entries)| <= limit as int || |ExpandAll(entries)| == 0 then Some(ExpandAll(entries))
            else None
  {
    r := Some([]);
    for n := 0 to |entries|
      invariant r.Some? && Limited(limit, ExpandAll(entries[..n]), r)
    {
      AllStep(entries, n);
      r := AppendEntryLimited(limit, r.value, entries[n]);
      if r.None? {
        AllPrefix(entries, n + 1);
        return;
      }
    }
    assert entries[..|entries|] == entries;
  }
}
