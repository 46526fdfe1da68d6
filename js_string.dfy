/**
 * The few JavaScript string built-ins that the modelled code relies on,
 * with the semantics the ECMAScript standard gives them. ECMAScript strings
 * are sequences of UTF-16 code units; here a `char` is one Unicode scalar
 * value, so a character outside the Basic Multilingual Plane is one `char`
 * where JavaScript counts two code units. Lengths and indices are counted
 * in characters.
 */
module JsString {

  /** A `substring(start)` call with one argument keeps everything from the
      clamped start: a negative start counts as 0, one past the end as the end. */
  function Substring(s: string, start: int): (r: string)
    ensures start <= 0 ==> r == s
    ensures start >= |s| ==> r == []
    ensures 0 <= start <= |s| ==> r == s[start..]
  {
    if start <= 0 then s
    else if start >= |s| then []
    else s[start..]
  }

  /** `t` ends `s`. */
  predicate IsSuffix(t: string, s: string) {
    |t| <= |s| && t == s[|s| - |t|..]
  }

  /** The case mapping of `toLowerCase`, restricted to the ASCII letters. */
  function LowerChar(c: char): (d: char)
    ensures 'A' <= c <= 'Z' ==> 'a' <= d <= 'z' && d as int - c as int == 32
    ensures !('A' <= c <= 'Z') ==> d == c
  {
    if 'A' <= c <= 'Z' then (c as int + 32) as char else c
  }

  function ToLowerCase(s: string): (r: string)
    ensures |r| == |s|
    ensures forall i :: 0 <= i < |s| ==> r[i] == LowerChar(s[i])
  {
    seq(|s|, i requires 0 <= i < |s| => LowerChar(s[i]))
  }

  /** WhiteSpace and LineTerminator code points, the characters `trim` strips. */
  predicate IsWhiteSpace(c: char) {
    || c == '\t' || c == '\U{000B}' || c == '\U{000C}' || c == ' '
    || c == '\U{00A0}' || c == '\U{FEFF}' || c == '\U{1680}'
    || ('\U{2000}' <= c <= '\U{200A}') || c == '\U{202F}' || c == '\U{205F}'
    || c == '\U{3000}'
    || c == '\n' || c == '\r' || c == '\U{2028}' || c == '\U{2029}'
  }

  function TrimStart(s: string): (r: string)
    ensures IsSuffix(r, s)
    ensures r == [] || !IsWhiteSpace(r[0])
    ensures forall i :: 0 <= i < |s| - |r| ==> IsWhiteSpace(s[i])
  {
    if s != [] && IsWhiteSpace(s[0]) then TrimStart(s[1..]) else s
  }

  function TrimEnd(s: string): (r: string)
    ensures |r| <= |s| && r == s[..|r|]
    ensures r == [] || !IsWhiteSpace(r[|r| - 1])
    ensures forall i :: |r| <= i < |s| ==> IsWhiteSpace(s[i])
  {
    if s != [] && IsWhiteSpace(s[|s| - 1]) then TrimEnd(s[..|s| - 1]) else s
  }

  /** `r` is the slice of `s` starting at `i`, with only white space around it. */
  predicate TrimmedAt(s: string, r: string, i: int) {
    && 0 <= i <= |s| - |r| && r == s[i..i + |r|]
    && (forall j :: 0 <= j < i ==> IsWhiteSpace(s[j]))
    && (forall j :: i + |r| <= j < |s| ==> IsWhiteSpace(s[j]))
  }

  /** `trim`: leading, then trailing white space removed. */
  function Trim(s: string): (r: string)
  {
    TrimEnd(TrimStart(s))
  }

  /** `trim` keeps the slice between the leading and the trailing white space. */
  lemma TrimIsSlice(s: string)
    ensures exists i :: TrimmedAt(s, Trim(s), i)
    ensures var r := Trim(s); r == [] || (!IsWhiteSpace(r[0]) && !IsWhiteSpace(r[|r| - 1]))
  {
    var t := TrimStart(s);
    var r := TrimEnd(t);
    var i := |s| - |t|;
    assert t == s[i..] && r == t[..|r|];
    assert r == s[i..i + |r|];
    assert forall j :: 0 <= j < i ==> IsWhiteSpace(s[j]);
    forall j | i + |r| <= j < |s| ensures IsWhiteSpace(s[j]) {
      assert s[j] == t[j - i];
    }
    assert Trim(s) == r;
    assert TrimmedAt(s, r, i);
  }

  /** `n` occurs in `h` at index `i`. */
  predicate OccursAt(h: string, n: string, i: int) {
    0 <= i && i + |n| <= |h| && h[i..i + |n|] == n
  }

  /** `h.includes(n)`. */
  function Includes(h: string, n: string): (r: bool)
    ensures r <==> exists i :: OccursAt(h, n, i)
    decreases |h|
  {
    if |n| > |h| then false
    else if h[..|n|] == n then
      assert OccursAt(h, n, 0);
      true
    else
      var r := Includes(h[1..], n);
      assert forall i :: OccursAt(h[1..], n, i) <==> OccursAt(h, n, i + 1) by {
        forall i ensures OccursAt(h[1..], n, i) <==> OccursAt(h, n, i + 1) {
          if 0 <= i && i + |n| <= |h| - 1 {
            assert h[1..][i..i + |n|] == h[i + 1..i + 1 + |n|];
          }
        }
      }
      assert !OccursAt(h, n, 0);
      assert r ==> exists i :: OccursAt(h, n, i) by {
        if r {
          var i :| OccursAt(h[1..], n, i);
          assert OccursAt(h, n, i + 1);
        }
      }
      assert (exists i :: OccursAt(h, n, i)) ==> r by {
        if exists i :: OccursAt(h, n, i) {
          var i :| OccursAt(h, n, i);
          assert i != 0;
          assert OccursAt(h[1..], n, i - 1);
        }
      }
      r
  }

  /** The empty string is included in every string. */
  lemma IncludesEmpty(h: string)
    ensures Includes(h, [])
  {
    assert OccursAt(h, [], 0);
  }

  /** The inverse of `split`: the fields glued back together with the separator. */
  function Join(fields: seq<string>, sep: char): string
    requires |fields| >= 1
  {
    if |fields| == 1 then fields[0] else fields[0] + [sep] + Join(fields[1..], sep)
  }

  /** `s.split(sep)` for a one-character separator: the maximal separator-free
      pieces, one more than there are separators. */
  function Split(s: string, sep: char): (fields: seq<string>)
    ensures |fields| >= 1
    ensures Join(fields, sep) == s
    ensures forall k :: 0 <= k < |fields| ==> sep !in fields[k]
    ensures sep !in s ==> fields == [s]
    decreases |s|
  {
    if s == [] then [[]]
    else
      var rest := Split(s[1..], sep);
      if s[0] == sep then
        assert s == [] + [sep] + s[1..];
        [[]] + rest
      else
        JoinExtendsHead(rest, [s[0]], sep);
        assert s == [s[0]] + s[1..];
        [[s[0]] + rest[0]] + rest[1..]
  }

  lemma {:induction false} JoinExtendsHead(fields: seq<string>, prefix: string, sep: char)
    requires |fields| >= 1
    ensures Join([prefix + fields[0]] + fields[1..], sep) == prefix + Join(fields, sep)
  {
    var g := [prefix + fields[0]] + fields[1..];
    assert g[1..] == fields[1..];
  }

  /** Splitting what `Join` glued together gives back the fields. */
  lemma {:induction false} SplitJoin(fields: seq<string>, sep: char)
    requires |fields| >= 1
    requires forall k :: 0 <= k < |fields| ==> sep !in fields[k]
    ensures Split(Join(fields, sep), sep) == fields
  {
    if |fields| > 1 {
      SplitJoin(fields[1..], sep);
      SplitAfterField(fields[0], Join(fields[1..], sep), sep);
      assert fields == [fields[0]] + fields[1..];
    }
  }

  lemma {:induction false} SplitAfterField(a: string, b: string, sep: char)
    requires sep !in a
    ensures Split(a + [sep] + b, sep) == [a] + Split(b, sep)
    decreases |a|
  {
    var s := a + [sep] + b;
    if a == [] {
      assert s[1..] == b;
    } else {
      assert s[1..] == a[1..] + [sep] + b;
      SplitAfterField(a[1..], b, sep);
      assert [a[0]] + a[1..] == a;
    }
  }
}
