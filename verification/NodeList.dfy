/** Splitting a comma-separated node list, keeping bracketed ranges whole (internal/cluset/cluset.go). */
module NodeList {
  import opened Wrappers
  import opened NodeSyntax

  /** unicode.IsSpace. */
  predicate IsSpace(c: char) {
    var u := c as int;
    9 <= u <= 13 || u == 0x20 || u == 0x85 || u == 0xA0 || u == 0x1680 || 0x2000 <= u <= 0x200a
    || u == 0x2028 || u == 0x2029 || u == 0x202f || u == 0x205f || u == 0x3000
  }

  function TrimSpace(s: string): string
    decreases |s|
  {
    if s == "" then ""
    else if IsSpace(s[0]) then TrimSpace(s[1..])
    else if IsSpace(s[|s| - 1]) then TrimSpace(s[..|s| - 1])
    else s
  }

  function Flush(current: string): seq<string> {
    var part := TrimSpace(current);
    if part == "" then [] else [part]
  }

  /** The parts still to come, when `current` has been read since the last split at bracket depth `depth`. */
  function Scan(s: string, current: string, depth: nat): seq<string> {
    if s == "" then Flush(current)
    else if s[0] == ',' && depth == 0 then Flush(current) + Scan(s[1..], "", 0)
    else Scan(s[1..], current + [s[0]], DepthAfter(s[0], depth))
  }

  function DepthAfter(c: char, depth: nat): nat {
    if c == '[' then depth + 1 else if c == ']' && depth > 0 then depth - 1 else depth
  }

  method SplitList(list: string) returns (result: seq<string>)
    ensures result == Scan(list, "", 0)
  {
    result := [];
    var current := "";
    var depth := 0;
    for i := 0 to |list|
      invariant result + Scan(list[i..], current, depth) == Scan(list, "", 0) && depth >= 0
    {
      var ch := list[i];
      assert list[i..][1..] == list[i + 1..];
      if ch == '[' {
        depth := depth + 1;
        current := current + [ch];
      } else if ch == ']' {
        if depth > 0 { depth := depth - 1; }
        current := current + [ch];
      } else if ch == ',' && depth == 0 {
        var part := TrimSpace(current);
        Reassociate(result, Flush(current), Scan(list[i + 1..], "", 0));
        if part != "" { result := result + [part]; }
        current := "";
      } else {
        current := current + [ch];
      }
    }
    if |current| > 0 {
      var part := TrimSpace(current);
      if part != "" { result := result + [part]; }
    }
  }

  // ---------------------------------------------------------------- joining and splitting

  ghost predicate Plain(s: string) {
    forall i :: 0 <= i < |s| ==> s[i] != '[' && s[i] != ']' && s[i] != ','
  }

  ghost predicate Unbracketed(s: string) {
    forall i :: 0 <= i < |s| ==> s[i] != '[' && s[i] != ']'
  }

  /** An entry the list syntax can carry: a plain name, or a plain prefix with one bracketed part, without space at its
      edges. */
  ghost predicate Clean(e: string) {
    && e != "" && !IsSpace(e[0]) && !IsSpace(e[|e| - 1])
    && (Plain(e) || exists prefix, inner :: Bracketed(e, prefix, inner))
  }

  ghost predicate Bracketed(e: string, prefix: string, inner: string) {
    e == prefix + "[" + inner + "]" && Plain(prefix) && Unbracketed(inner)
  }

  /** Text without brackets, and without commas outside brackets, is collected as it is. */
  lemma {:induction false} ScanOver(s: string, rest: string, current: string, depth: nat)
    requires if depth == 0 then Plain(s) else Unbracketed(s)
    ensures Scan(s + rest, current, depth) == Scan(rest, current + s, depth)
    decreases |s|
  {
    if s == "" {
      assert s + rest == rest && current + s == current;
    } else {
      assert (s + rest)[0] == s[0] && (s + rest)[1..] == s[1..] + rest;
      ScanOver(s[1..], rest, current + [s[0]], depth);
      assert current + [s[0]] + s[1..] == current + s;
    }
  }

  lemma ScanBracket(prefix: string, inner: string, rest: string)
    requires Plain(prefix) && Unbracketed(inner)
    ensures Scan(prefix + "[" + inner + "]" + rest, "", 0) == Scan(rest, prefix + "[" + inner + "]", 0)
  {
    var tail := "]" + rest;
    var middle := "[" + (inner + tail);
    assert prefix + "[" + inner + "]" + rest == prefix + middle;
    ScanOver(prefix, middle, "", 0);
    assert "" + prefix == prefix;
    assert middle[0] == '[' && middle[1..] == inner + tail;
    ScanOver(inner, tail, prefix + "[", 1);
    assert tail[0] == ']' && tail[1..] == rest;
  }

  lemma ScanEntry(e: string, rest: string)
    requires Clean(e)
    ensures Scan(e + rest, "", 0) == Scan(rest, e, 0)
  {
    if Plain(e) {
      ScanOver(e, rest, "", 0);
      assert "" + e == e;
    } else {
      var prefix, inner :| Bracketed(e, prefix, inner);
      ScanBracket(prefix, inner, rest);
    }
  }

  /** Splitting undoes joining. */
  lemma {:induction false} SplitJoined(entries: seq<string>)
    requires forall i :: 0 <= i < |entries| ==> Clean(entries[i])
    ensures Scan(Join(entries, ','), "", 0) == entries
  {
    if entries != [] {
      var e := entries[0];
      if |entries| == 1 {
        ScanEntry(e, "");
        assert e + "" == e;
      } else {
        var rest := "," + Join(entries[1..], ',');
        assert Join(entries, ',') == e + rest;
        ScanEntry(e, rest);
        assert rest[0] == ',' && rest[1..] == Join(entries[1..], ',');
        SplitJoined(entries[1..]);
      }
    }
  }
}
