/** The JavaScript string operations the blog's code relies on: `trim`, `toLowerCase`,
    `includes`, `startsWith`, the default `sort` order and `split(/\s+/)`. */
module Text {

  /** The ECMAScript WhiteSpace and LineTerminator code points: exactly what `String.prototype.trim`
      strips and what the regular-expression class `\s` matches. */
  predicate IsSpace(c: char) {
    c == ' ' || c == '\t' || c == '\n' || c == '\r' || c == '\U{000B}' || c == '\U{000C}'
    || c == '\U{00A0}' || c == '\U{1680}' || ('\U{2000}' <= c <= '\U{200A}')
    || c == '\U{2028}' || c == '\U{2029}' || c == '\U{202F}' || c == '\U{205F}'
    || c == '\U{3000}' || c == '\U{FEFF}'
  }

  /** Every character of `s` is white space (so `s.trim() === ''`). */
  predicate IsBlank(s: string) {
    forall i :: 0 <= i < |s| ==> IsSpace(s[i])
  }

  /** `s.trimStart()`: the suffix of `s` after its leading white space. */
  function TrimStart(s: string): (r: string)
    ensures |r| <= |s| && r == s[|s| - |r|..]
    ensures r != [] ==> !IsSpace(r[0])
    ensures IsBlank(s[..|s| - |r|])
    decreases |s|
  {
    if s != [] && IsSpace(s[0]) then TrimStart(s[1..]) else s
  }

  /** The characters of `s` from `lo` up to `hi` are all white space. */
  predicate SpacesIn(s: string, lo: nat, hi: nat)
    requires lo <= hi <= |s|
  {
    forall i :: lo <= i < hi ==> IsSpace(s[i])
  }

  /** The first position at or after `i` that does not hold white space (`|s|` if none does). */
  function TextStart(s: string, i: nat): (k: nat)
    requires i <= |s|
    ensures i <= k <= |s| && SpacesIn(s, i, k)
    ensures k < |s| ==> !IsSpace(s[k])
    decreases |s| - i
  {
    if i < |s| && IsSpace(s[i]) then TextStart(s, i + 1) else i
  }

  /** The position just after the last character before `j`, and not before `lo`, that is not
      white space (`lo` if there is none). */
  function TextEnd(s: string, lo: nat, j: nat): (e: nat)
    requires lo <= j <= |s|
    ensures lo <= e <= j && SpacesIn(s, e, j)
    ensures e > lo ==> !IsSpace(s[e - 1])
    decreases j
  {
    if j > lo && IsSpace(s[j - 1]) then TextEnd(s, lo, j - 1) else j
  }

  /** `s.trim()`: the slice of `s` between its leading and its trailing white space. It is
      empty exactly when `s` is blank. */
  function Trim(s: string): (r: string)
    ensures |r| <= |s|
    ensures r == [] <==> IsBlank(s)
  {
    var k := TextStart(s, 0);
    var e := TextEnd(s, k, |s|);
    assert e == k ==> IsBlank(s) by {
      if e == k {
        assert k == |s|;
        assert SpacesIn(s, 0, k);
      }
    }
    s[k..e]
  }

  /** What `trim` removes is white space on either side, and what it keeps starts and ends with a
      character that is not. */
  lemma TrimIsSlice(s: string)
    ensures var k := TextStart(s, 0); var e := TextEnd(s, k, |s|);
      Trim(s) == s[k..e] && SpacesIn(s, 0, k) && SpacesIn(s, e, |s|)
    ensures Trim(s) != [] ==> !IsSpace(Trim(s)[0]) && !IsSpace(Trim(s)[|Trim(s)| - 1])
  {
  }

  lemma {:induction false} TrimIdempotent(s: string)
    ensures Trim(Trim(s)) == Trim(s)
  {
    var r := Trim(s);
    TrimIsSlice(s);
    if r != [] {
      assert TextStart(r, 0) == 0;
      assert TextEnd(r, 0, |r|) == |r|;
      assert r[0..|r|] == r;
    }
  }

  /** `toLowerCase` on one character; only the ASCII letters are mapped. */
  function LowerChar(c: char): char {
    if 'A' <= c <= 'Z' then (c as int + 32) as char else c
  }

  /** `s.toLowerCase()`, character by character. */
  function Lower(s: string): (r: string)
    ensures |r| == |s|
    ensures forall i :: 0 <= i < |s| ==> r[i] == LowerChar(s[i])
  {
    seq(|s|, i requires 0 <= i < |s| => LowerChar(s[i]))
  }

  /** Lower-casing twice is lower-casing once, so a lower-cased query matches a lower-cased field
      the same way however often either was lower-cased. */
  lemma LowerIdempotent(s: string)
    ensures Lower(Lower(s)) == Lower(s)
  {
  }

  /** `needle` occurs in `s` starting at position `i`. */
  predicate OccursAt(s: string, needle: string, i: nat) {
    i + |needle| <= |s| && s[i..i + |needle|] == needle
  }

  /** `s.includes(needle)`: the needle occurs at some position of `s`. */
  function Includes(s: string, needle: string): (b: bool)
    ensures b <==> exists i: nat :: OccursAt(s, needle, i)
    decreases |s|
  {
    if |needle| <= |s| && s[..|needle|] == needle then
      assert OccursAt(s, needle, 0);
      true
    else if s == [] then
      false
    else
      var b := Includes(s[1..], needle);
      assert forall i: nat :: OccursAt(s[1..], needle, i) <==> OccursAt(s, needle, i + 1) by {
        forall i: nat ensures OccursAt(s[1..], needle, i) <==> OccursAt(s, needle, i + 1) {
          if i + 1 + |needle| <= |s| {
            assert s[1..][i..i + |needle|] == s[i + 1..i + 1 + |needle|];
          }
        }
      }
      assert !OccursAt(s, needle, 0);
      assert (exists i: nat :: OccursAt(s, needle, i)) ==> exists i: nat :: OccursAt(s[1..], needle, i) by {
        if exists i: nat :: OccursAt(s, needle, i) {
          var i: nat :| OccursAt(s, needle, i);
          assert i != 0;
          assert OccursAt(s[1..], needle, i - 1);
        }
      }
      b
  }

  /** `s.startsWith(prefix)`. */
  predicate StartsWith(s: string, prefix: string) {
    |prefix| <= |s| && s[..|prefix|] == prefix
  }

  /** The order of JavaScript's default `Array.prototype.sort` on strings: lexicographic by
      character code, a proper prefix coming first. */
  predicate Less(a: string, b: string)
    ensures |a| < |b| && b[..|a|] == a ==> Less(a, b)
    ensures |b| <= |a| && a[..|b|] == b ==> !Less(a, b)
    ensures Less(a, b) && |a| > 0 ==> a[0] <= b[0]
    decreases |a|
  {
    if |a| > 0 && |b| > 0 && a[0] == b[0] then
      assert |a| < |b| && b[..|a|] == a ==> b[1..][..|a| - 1] == b[..|a|][1..] == a[1..];
      assert |b| <= |a| && a[..|b|] == b ==> a[1..][..|b| - 1] == a[..|b|][1..] == b[1..];
      Less(a[1..], b[1..])
    else
      |b| > 0 && (|a| == 0 || a[0] < b[0])
  }

  lemma {:induction false} LessIrreflexive(a: string)
    ensures !Less(a, a)
    decreases |a|
  {
    if |a| > 0 { LessIrreflexive(a[1..]); }
  }

  lemma {:induction false} LessTransitive(a: string, b: string, c: string)
    requires Less(a, b) && Less(b, c)
    ensures Less(a, c)
    decreases |a|
  {
    if |a| > 0 && a[0] == b[0] && b[0] == c[0] {
      LessTransitive(a[1..], b[1..], c[1..]);
    }
  }

  lemma {:induction false} LessAsymmetric(a: string, b: string)
    ensures Less(a, b) ==> !Less(b, a)
    decreases |a|
  {
    if |a| > 0 && |b| > 0 && a[0] == b[0] {
      LessAsymmetric(a[1..], b[1..]);
    }
  }

  lemma {:induction false} LessTotal(a: string, b: string)
    requires a != b
    ensures Less(a, b) || Less(b, a)
    decreases |a|
  {
    if |a| > 0 && |b| > 0 && a[0] == b[0] {
      LessTotal(a[1..], b[1..]);
    }
  }

  /** The number of maximal runs of white space in `s`: each run is one separator of
      `s.split(/\s+/)`, so the split has one more piece than there are runs. */
  function SpaceRuns(s: string): nat
    decreases |s|
  {
    if s == [] then 0
    else if IsSpace(s[0]) then 1 + SpaceRuns(TrimStart(s))
    else SpaceRuns(s[1..])
  }

  /** `s.split(/\s+/)`: the pieces of `s` between maximal runs of white space, including the empty
      piece before a leading run and after a trailing one. */
  function SplitOnSpace(s: string): (pieces: seq<string>)
    ensures |pieces| == SpaceRuns(s) + 1
    ensures forall k :: 0 <= k < |pieces| ==> forall i :: 0 <= i < |pieces[k]| ==> !IsSpace(pieces[k][i])
    decreases |s|
  {
    if s == [] then [""]
    else if IsSpace(s[0]) then [""] + SplitOnSpace(TrimStart(s))
    else
      var rest := SplitOnSpace(s[1..]);
      [[s[0]] + rest[0]] + rest[1..]
  }
}
