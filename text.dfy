/**
 * The few Python string operations the pipeline relies on, over `string`
 * (a sequence of Unicode scalar values): `str.isspace`, `strip`, `lstrip`,
 * `rstrip`, the `in` test, `find`, `split(sep)[0]` and `sep.join(parts)`.
 */
module Text {

  /** Python's `str.isspace()` for a single character. */
  predicate IsSpace(c: char) {
    || c == ' '
    || '\t' <= c <= '\r'              // \t \n \v \f \r
    || '\U{1C}' <= c <= '\U{1F}'      // file, group, record and unit separators
    || c == '\U{85}' || c == '\U{A0}' || c == '\U{1680}'
    || '\U{2000}' <= c <= '\U{200A}'
    || c == '\U{2028}' || c == '\U{2029}' || c == '\U{202F}' || c == '\U{205F}' || c == '\U{3000}'
  }

  /** Every character of `s` is whitespace (Python: `not s.strip()`). */
  predicate AllSpace(s: string) {
    forall i :: 0 <= i < |s| ==> IsSpace(s[i])
  }

  /** `s` neither starts nor ends with whitespace. */
  predicate IsStripped(s: string) {
    s == [] || (!IsSpace(s[0]) && !IsSpace(s[|s| - 1]))
  }

  /** Python's `s.lstrip()`: drops all leading whitespace. */
  function LStrip(s: string): string {
    if s != [] && IsSpace(s[0]) then LStrip(s[1..]) else s
  }

  /** Python's `s.rstrip()`: drops all trailing whitespace. */
  function RStrip(s: string): string {
    if s != [] && IsSpace(s[|s| - 1]) then RStrip(s[..|s| - 1]) else s
  }

  /** `lstrip` leaves the suffix that follows the leading whitespace and starts with a non-space. */
  lemma {:induction false} LStripSpec(s: string)
    ensures var r := LStrip(s);
      && |r| <= |s| && r == s[|s| - |r|..]
      && AllSpace(s[..|s| - |r|])
      && (r == [] || !IsSpace(r[0]))
  {
    if s != [] && IsSpace(s[0]) {
      var t := s[1..];
      var r := LStrip(t);
      LStripSpec(t);
      var k := |s| - |r|;
      assert r == s[k..] by { assert t[|t| - |r|..] == s[k..]; }
      forall i | 0 <= i < k ensures IsSpace(s[..k][i]) {
        if i > 0 { assert s[..k][i] == t[..|t| - |r|][i - 1]; }
      }
    }
  }

  /** `rstrip` leaves the prefix that precedes the trailing whitespace and ends with a non-space. */
  lemma {:induction false} RStripSpec(s: string)
    ensures var r := RStrip(s);
      && |r| <= |s| && r == s[..|r|]
      && AllSpace(s[|r|..])
      && (r == [] || !IsSpace(r[|r| - 1]))
  {
    if s != [] && IsSpace(s[|s| - 1]) {
      var t := s[..|s| - 1];
      var r := RStrip(t);
      RStripSpec(t);
      assert r == s[..|r|] by { assert t[..|r|] == s[..|r|]; }
      forall i | 0 <= i < |s| - |r| ensures IsSpace(s[|r|..][i]) {
        if i < |t| - |r| { assert s[|r|..][i] == t[|r|..][i]; }
      }
    }
  }

  /** Python's `s.strip()`: what lies between the leading and the trailing whitespace. */
  function Strip(s: string): (r: string)
    ensures IsStripped(r) && |r| <= |s|
  {
    LStripSpec(s);
    RStripSpec(LStrip(s));
    RStrip(LStrip(s))
  }

  /** `strip` removes only whitespace, and only at the two ends: the result is a slice of `s`. */
  lemma StripIsSlice(s: string)
    ensures exists a :: 0 <= a && a + |Strip(s)| <= |s| && Strip(s) == s[a..a + |Strip(s)|]
                        && AllSpace(s[..a]) && AllSpace(s[a + |Strip(s)|..])
  {
    var l := LStrip(s);
    var r := RStrip(l);
    LStripSpec(s);
    RStripSpec(l);
    var a := |s| - |l|;
    assert r == s[a..a + |r|];
    assert l[|r|..] == s[a + |r|..];
  }

  /** Stripping a string that is already stripped changes nothing. */
  lemma StrippedStripsToItself(s: string)
    requires IsStripped(s)
    ensures Strip(s) == s
  {
  }

  /** `strip` is idempotent. */
  lemma StripIdempotent(s: string)
    ensures Strip(Strip(s)) == Strip(s)
  {
    StrippedStripsToItself(Strip(s));
  }

  /** A string strips to nothing exactly when it is blank. */
  lemma StripEmptyIffBlank(s: string)
    ensures Strip(s) == [] <==> AllSpace(s)
  {
    var l := LStrip(s);
    var r := RStrip(l);
    LStripSpec(s);
    RStripSpec(l);
    var a := |s| - |l|;
    if r == [] {
      assert l == [];
      forall i | 0 <= i < |s| ensures IsSpace(s[i]) {
        assert s[..a][i] == s[i];
      }
    } else {
      assert s[a] == l[0] == r[0];
    }
  }

  /** `m` occurs in `s` starting at index `i`. */
  predicate OccursAt(s: string, m: string, i: int) {
    0 <= i && i + |m| <= |s| && s[i..i + |m|] == m
  }

  /** The first index at or after `start` where `m` occurs in `s`, or -1. */
  function FindFrom(s: string, m: string, start: nat): (r: int)
    requires start <= |s|
    decreases |s| - start
    ensures r == -1 || (start <= r && OccursAt(s, m, r))
    ensures forall i :: start <= i && OccursAt(s, m, i) ==> r != -1 && r <= i
  {
    if start + |m| > |s| then -1
    else if s[start..start + |m|] == m then start
    else
      assert m != [];
      FindFrom(s, m, start + 1)
  }

  /** Python's `s.find(m)`: the first index where `m` occurs in `s`, or -1. */
  function Find(s: string, m: string): (r: int)
    ensures r == -1 <==> forall i :: !OccursAt(s, m, i)
    ensures r != -1 ==> OccursAt(s, m, r) && forall i :: 0 <= i < r ==> !OccursAt(s, m, i)
  {
    FindFrom(s, m, 0)
  }

  /** Python's `m in s`. */
  predicate Contains(s: string, m: string) {
    Find(s, m) != -1
  }

  /**
   * Python's `s.split(m)[0]` (`m` must be non-empty, otherwise Python raises):
   * everything before the first occurrence of `m`, or all of `s` when `m` does not occur.
   */
  function SplitHead(s: string, m: string): (r: string)
    requires m != []
    ensures |r| <= |s| && r == s[..|r|]
    ensures !Contains(r, m)
    ensures Contains(s, m) ==> OccursAt(s, m, |r|)
    ensures !Contains(s, m) ==> r == s
  {
    var i := Find(s, m);
    if i == -1 then s
    else
      var r := s[..i];
      forall j | OccursAt(r, m, j) ensures OccursAt(s, m, j) {
        assert r[j..j + |m|] == s[j..j + |m|];
      }
      r
  }

  /** A string that does not contain `m` has no slice that contains `m`. */
  lemma NotContainedInSlice(s: string, m: string, a: nat, b: nat)
    requires a <= b <= |s|
    requires !Contains(s, m)
    ensures !Contains(s[a..b], m)
  {
    forall i | OccursAt(s[a..b], m, i) ensures OccursAt(s, m, a + i) {
      forall k | 0 <= k < |m| ensures s[a + i..a + i + |m|][k] == m[k] {
        assert s[a..b][i..i + |m|][k] == m[k];
      }
    }
  }

  /** The sum of the lengths of `parts`, separators not included. */
  function TotalLength(parts: seq<string>): nat {
    if parts == [] then 0 else |parts[0]| + TotalLength(parts[1..])
  }

  /** Python's `sep.join(parts)`. */
  function Join(parts: seq<string>, sep: string): (r: string)
    ensures parts != [] ==> |r| == TotalLength(parts) + |sep| * (|parts| - 1)
  {
    if parts == [] then ""
    else if |parts| == 1 then parts[0]
    else parts[0] + sep + Join(parts[1..], sep)
  }

  /** Joining non-empty parts gives the empty string only when there are no parts. */
  lemma {:induction false} JoinEmptyIffNoParts(parts: seq<string>, sep: string)
    requires forall i :: 0 <= i < |parts| ==> parts[i] != []
    ensures Join(parts, sep) == [] <==> parts == []
  {
    if parts != [] {
      assert |Join(parts, sep)| >= |parts[0]| > 0;
    }
  }
}
