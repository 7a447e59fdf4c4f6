/**
 * The Python string operations the exporter relies on, restricted to what
 * the model needs: `sep.join`, `s.split(c)`, `t in s`, `s.replace(c, r)` for
 * a one-character pattern, ASCII `lower`, `isalnum`, `strip`, and the order
 * `sorted` puts strings in.
 */
module Text {

  // ---------------------------------------------------------------- join / split

  /** `sep.join(parts)`. */
  function Join(parts: seq<string>, sep: string): string
    decreases |parts|
  {
    if |parts| == 0 then ""
    else if |parts| == 1 then parts[0]
    else parts[0] + sep + Join(parts[1..], sep)
  }

  /** `s.split(c)`: never empty, and no piece contains the separator. */
  function Split(s: string, c: char): (parts: seq<string>)
    ensures |parts| >= 1
    ensures forall i :: 0 <= i < |parts| ==> c !in parts[i]
    decreases |s|
  {
    if |s| == 0 then [""]
    else
      var rest := Split(s[1..], c);
      if s[0] == c then [""] + rest
      else [[s[0]] + rest[0]] + rest[1..]
  }

  /** Every character of every piece comes from the string that was split. */
  lemma {:induction false} SplitChars(s: string, c: char)
    ensures forall i, x :: 0 <= i < |Split(s, c)| && x in Split(s, c)[i] ==> x in s
    decreases |s|
  {
    if |s| > 0 {
      SplitChars(s[1..], c);
      assert forall x :: x in s[1..] ==> x in s;
    }
  }

  /** Splitting on `c` and joining with `c` gives back the original string. */
  lemma {:induction false} JoinSplit(s: string, c: char)
    ensures Join(Split(s, c), [c]) == s
    decreases |s|
  {
    if |s| > 0 {
      var rest := Split(s[1..], c);
      JoinSplit(s[1..], c);
      if s[0] != c && |rest| > 1 {
        assert rest == [rest[0]] + rest[1..];
        assert Join(rest, [c]) == rest[0] + [c] + Join(rest[1..], [c]);
      }
    }
  }

  /** A prefix free of the separator becomes the head of the first piece. */
  lemma {:induction false} SplitPrefix(p: string, t: string, c: char)
    requires c !in p
    ensures Split(p + t, c) == [p + Split(t, c)[0]] + Split(t, c)[1..]
    decreases |p|
  {
    if |p| > 0 {
      assert (p + t)[0] == p[0] && (p + t)[1..] == p[1..] + t;
      SplitPrefix(p[1..], t, c);
      var rest := Split(p[1..] + t, c);
      assert rest[0] == p[1..] + Split(t, c)[0];
      assert [p[0]] + rest[0] == p + Split(t, c)[0];
    } else {
      assert p + t == t;
      assert p + Split(t, c)[0] == Split(t, c)[0];
      assert Split(t, c) == [Split(t, c)[0]] + Split(t, c)[1..];
    }
  }

  /** Joining pieces that are free of `c` with `c` and splitting again gives back the pieces. */
  lemma {:induction false} SplitJoin(parts: seq<string>, c: char)
    requires |parts| >= 1
    requires forall i :: 0 <= i < |parts| ==> c !in parts[i]
    ensures Split(Join(parts, [c]), c) == parts
    decreases |parts|
  {
    if |parts| == 1 {
      SplitPrefix(parts[0], "", c);
      assert parts[0] + "" == parts[0];
    } else {
      var tail := Join(parts[1..], [c]);
      SplitJoin(parts[1..], c);
      assert Join(parts, [c]) == parts[0] + ([c] + tail);
      SplitPrefix(parts[0], [c] + tail, c);
      assert ([c] + tail)[0] == c && ([c] + tail)[1..] == tail;
      var pieces := Split([c] + tail, c);
      assert pieces == [""] + Split(tail, c);
      assert pieces[0] == "" && pieces[1..] == parts[1..];
      assert parts[0] + pieces[0] == parts[0];
      assert parts == [parts[0]] + parts[1..];
    }
  }

  // ---------------------------------------------------------------- substrings

  /** `s` starts with `t`. */
  predicate IsPrefix(t: string, s: string) {
    |t| <= |s| && s[..|t|] == t
  }

  /** Python's `t in s` on strings; the empty string occurs in every string. */
  predicate SubstringOf(t: string, s: string)
    decreases |s|
  {
    IsPrefix(t, s) || (|s| > 0 && SubstringOf(t, s[1..]))
  }

  /** `SubstringOf` finds exactly the occurrences at some offset. */
  lemma {:induction false} SubstringOfAt(t: string, s: string)
    ensures SubstringOf(t, s) <==> exists k :: 0 <= k <= |s| && IsPrefix(t, s[k..])
    decreases |s|
  {
    if IsPrefix(t, s) {
      assert s[0..] == s;
    }
    if |s| > 0 {
      SubstringOfAt(t, s[1..]);
      if exists k :: 0 <= k <= |s| && IsPrefix(t, s[k..]) {
        var k :| 0 <= k <= |s| && IsPrefix(t, s[k..]);
        if k > 0 {
          assert s[1..][k - 1..] == s[k..];
        }
      }
      if SubstringOf(t, s[1..]) {
        var k :| 0 <= k <= |s[1..]| && IsPrefix(t, s[1..][k..]);
        assert s[1..][k..] == s[k + 1..];
      }
    } else {
      if exists k :: 0 <= k <= |s| && IsPrefix(t, s[k..]) {
        var k :| 0 <= k <= |s| && IsPrefix(t, s[k..]);
        assert s[k..] == s;
      }
      if SubstringOf(t, s) {
        assert s[0..] == s;
      }
    }
  }

  // ---------------------------------------------------------------- replace

  /** `s.replace(c, r)` for a one-character pattern `c`. */
  function ReplaceChar(s: string, c: char, r: string): string
    decreases |s|
  {
    if |s| == 0 then ""
    else (if s[0] == c then r else [s[0]]) + ReplaceChar(s[1..], c, r)
  }

  /** Replacement distributes over concatenation. */
  lemma {:induction false} ReplaceCharAppend(a: string, b: string, c: char, r: string)
    ensures ReplaceChar(a + b, c, r) == ReplaceChar(a, c, r) + ReplaceChar(b, c, r)
    decreases |a|
  {
    if |a| > 0 {
      assert (a + b)[0] == a[0] && (a + b)[1..] == a[1..] + b;
      ReplaceCharAppend(a[1..], b, c, r);
      var h := if a[0] == c then r else [a[0]];
      assert ReplaceChar(a + b, c, r) == h + (ReplaceChar(a[1..], c, r) + ReplaceChar(b, c, r));
    } else {
      assert a + b == b;
    }
  }

  // ---------------------------------------------------------------- characters

  /** `c.lower()` on ASCII; every other character is left alone. */
  function LowerChar(c: char): char {
    if 'A' <= c <= 'Z' then (c as int + 32) as char else c
  }

  /** `s.lower()`, character by character. */
  function Lower(s: string): string
    decreases |s|
  {
    if |s| == 0 then "" else [LowerChar(s[0])] + Lower(s[1..])
  }

  /** `c.isalnum()` on ASCII. */
  predicate IsAlnum(c: char) {
    'a' <= c <= 'z' || 'A' <= c <= 'Z' || '0' <= c <= '9'
  }

  /** `c.isspace()` on ASCII: space, tab to carriage return, and the four separators 0x1C-0x1F. */
  predicate IsSpace(c: char) {
    c == ' ' || 9 <= c as int <= 13 || 28 <= c as int <= 31
  }

  // ---------------------------------------------------------------- strip

  /** `s.lstrip()`. */
  function StripStart(s: string): string
    decreases |s|
  {
    if |s| > 0 && IsSpace(s[0]) then StripStart(s[1..]) else s
  }

  /** `s.lstrip()` drops the leading whitespace and nothing else. */
  lemma {:induction false} StripStartDrops(s: string)
    ensures var r := StripStart(s);
            |r| <= |s| && r == s[|s| - |r|..] &&
            (forall i :: 0 <= i < |s| - |r| ==> IsSpace(s[i])) &&
            (r == [] || !IsSpace(r[0]))
    decreases |s|
  {
    if |s| > 0 && IsSpace(s[0]) {
      StripStartDrops(s[1..]);
      var r := StripStart(s);
      assert s[1..][|s| - 1 - |r|..] == s[|s| - |r|..];
      forall i | 1 <= i < |s| - |r| ensures IsSpace(s[i]) {
        assert s[1..][i - 1] == s[i];
      }
    }
  }

  /** `s.rstrip()`. */
  function StripEnd(s: string): string
    decreases |s|
  {
    if |s| > 0 && IsSpace(s[|s| - 1]) then StripEnd(s[..|s| - 1]) else s
  }

  /** `s.rstrip()` drops the trailing whitespace and nothing else. */
  lemma {:induction false} StripEndDrops(s: string)
    ensures var r := StripEnd(s);
            |r| <= |s| && r == s[..|r|] &&
            (forall i :: |r| <= i < |s| ==> IsSpace(s[i])) &&
            (r == [] || !IsSpace(r[|r| - 1]))
    decreases |s|
  {
    if |s| > 0 && IsSpace(s[|s| - 1]) {
      StripEndDrops(s[..|s| - 1]);
      var r := StripEnd(s);
      assert s[..|s| - 1][..|r|] == s[..|r|];
      forall i | |r| <= i < |s| - 1 ensures IsSpace(s[i]) {
        assert s[..|s| - 1][i] == s[i];
      }
    }
  }

  /** `s.strip()`. */
  function Strip(s: string): string {
    StripEnd(StripStart(s))
  }

  /** `s.strip()` is the longest middle part of `s` that neither starts nor ends with whitespace. */
  lemma StripTrims(s: string)
    ensures var r := Strip(s);
            (r == [] || (!IsSpace(r[0]) && !IsSpace(r[|r| - 1]))) &&
            exists lead :: 0 <= lead <= |s| - |r| && IsPrefix(r, s[lead..])
                           && (forall i :: 0 <= i < lead ==> IsSpace(s[i]))
                           && (forall i :: lead + |r| <= i < |s| ==> IsSpace(s[i]))
  {
    var t := StripStart(s);
    StripStartDrops(s);
    StripEndDrops(t);
    TrimmedMiddle(s, t, StripEnd(t));
  }

  /** Dropping a whitespace prefix and then a whitespace suffix leaves a middle part of the original. */
  lemma TrimmedMiddle(s: string, t: string, r: string)
    requires |t| <= |s| && t == s[|s| - |t|..] && forall i :: 0 <= i < |s| - |t| ==> IsSpace(s[i])
    requires |r| <= |t| && r == t[..|r|] && forall i :: |r| <= i < |t| ==> IsSpace(t[i])
    ensures var lead := |s| - |t|;
            IsPrefix(r, s[lead..]) && forall i :: lead + |r| <= i < |s| ==> IsSpace(s[i])
  {
    var lead := |s| - |t|;
    forall i | lead + |r| <= i < |s| ensures IsSpace(s[i]) {
      assert s[i] == t[i - lead];
    }
  }

  // ---------------------------------------------------------------- ordering

  /** `a < b` on Python strings: code-point lexicographic order. */
  predicate Below(a: string, b: string)
    decreases |a|
  {
    |b| > 0 && (|a| == 0 || a[0] < b[0] || (a[0] == b[0] && Below(a[1..], b[1..])))
  }

  lemma {:induction false} BelowIrreflexive(a: string)
    ensures !Below(a, a)
    decreases |a|
  {
    if |a| > 0 {
      BelowIrreflexive(a[1..]);
    }
  }

  lemma {:induction false} BelowTransitive(a: string, b: string, c: string)
    requires Below(a, b) && Below(b, c)
    ensures Below(a, c)
    decreases |a|
  {
    if |a| > 0 && a[0] == b[0] && b[0] == c[0] {
      BelowTransitive(a[1..], b[1..], c[1..]);
    }
  }

  lemma {:induction false} BelowTotal(a: string, b: string)
    requires a != b
    ensures Below(a, b) || Below(b, a)
    decreases |a|
  {
    if |a| > 0 && |b| > 0 && a[0] == b[0] {
      assert a == [a[0]] + a[1..] && b == [b[0]] + b[1..];
      BelowTotal(a[1..], b[1..]);
    }
  }

  lemma BelowAsymmetric(a: string, b: string)
    requires Below(a, b)
    ensures !Below(b, a)
  {
    if Below(b, a) {
      BelowTransitive(a, b, a);
      BelowIrreflexive(a);
    }
  }

  /** Every earlier element is strictly below every later one (so there are no repeats). */
  predicate StrictlySorted(s: seq<string>) {
    forall i, j :: 0 <= i < j < |s| ==> Below(s[i], s[j])
  }

  /** No element occurs twice. */
  predicate Distinct(s: seq<string>) {
    forall i, j :: 0 <= i < j < |s| ==> s[i] != s[j]
  }

  /** `r` is what `sorted(keys)` returns for the set `keys`. */
  ghost predicate IsSortedListing(r: seq<string>, keys: set<string>) {
    StrictlySorted(r) && forall x :: x in r <==> x in keys
  }

  lemma SortedIsDistinct(s: seq<string>)
    requires StrictlySorted(s)
    ensures Distinct(s)
  {
    forall i, j | 0 <= i < j < |s| ensures s[i] != s[j] {
      if s[i] == s[j] {
        BelowIrreflexive(s[i]);
      }
    }
  }

  /** Inserts `k` at its place in a strictly sorted sequence. */
  function InsertSorted(s: seq<string>, k: string): (r: seq<string>)
    requires StrictlySorted(s) && k !in s
    ensures StrictlySorted(r) && |r| == |s| + 1
    ensures forall x :: x in r <==> x in s || x == k
    decreases |s|
  {
    if |s| == 0 then [k]
    else if Below(k, s[0]) then
      assert forall j :: 0 <= j < |s| ==> Below(k, s[j]) by {
        forall j | 0 <= j < |s| ensures Below(k, s[j]) {
          if j > 0 {
            BelowTransitive(k, s[0], s[j]);
          }
        }
      }
      [k] + s
    else
      BelowTotal(k, s[0]);
      var r := [s[0]] + InsertSorted(s[1..], k);
      assert forall j :: 0 < j < |r| ==> r[j] in s[1..] || r[j] == k;
      r
  }

  lemma HeadIn(b: seq<string>)
    ensures |b| > 0 ==> b[0] in b
  {
  }

  /** A set has only one sorted listing: `sorted` is deterministic. */
  lemma {:induction false} SortedListingUnique(a: seq<string>, b: seq<string>, keys: set<string>)
    requires IsSortedListing(a, keys) && IsSortedListing(b, keys)
    ensures a == b
    decreases |a|
  {
    if |a| > 0 {
      assert a[0] in b && b[0] in a;
      if a[0] != b[0] {
        var i :| 0 <= i < |b| && b[i] == a[0];
        var j :| 0 <= j < |a| && a[j] == b[0];
        assert Below(b[0], a[0]) && Below(a[0], b[0]);
        BelowAsymmetric(b[0], a[0]);
      }
      SortedIsDistinct(a);
      SortedIsDistinct(b);
      var rest := keys - {a[0]};
      assert IsSortedListing(a[1..], rest);
      assert IsSortedListing(b[1..], rest);
      SortedListingUnique(a[1..], b[1..], rest);
    } else {
      HeadIn(b);
    }
  }
}
