/**
  The three string primitives the page watcher relies on, stated over
  `seq<char>`: Python's `str.strip()` with no argument, `str.lower()` and
  the substring test `k in text`.
 */
module Text {

  /** Python's `str.isspace()` for one code point: exactly the characters
      that `str.strip()` with no argument removes. */
  predicate IsSpace(c: char) {
    || c == ' '
    || ('\t' <= c <= '\r')
    || ('\U{1C}' <= c <= '\U{1F}')
    || c == '\U{85}' || c == '\U{A0}' || c == '\U{1680}'
    || ('\U{2000}' <= c <= '\U{200A}')
    || c == '\U{2028}' || c == '\U{2029}' || c == '\U{202F}'
    || c == '\U{205F}' || c == '\U{3000}'
  }

  /** Among the ASCII characters the white space is the space, tab, line
      feed, vertical tab, form feed, carriage return and the four separators
      0x1C to 0x1F; letters and digits never are. */
  lemma IsSpaceAscii(c: char)
    ensures c as int < 0x80 ==>
      (IsSpace(c) <==> c in {' ', '\t', '\n', '\U{B}', '\U{C}', '\r', '\U{1C}', '\U{1D}', '\U{1E}', '\U{1F}'})
    ensures ('a' <= c <= 'z') || ('A' <= c <= 'Z') || ('0' <= c <= '9') ==> !IsSpace(c)
  {
  }

  /** Scanning up from `i`: the first index that is not white space (or `|s|`). */
  function SkipSpaceUp(s: string, i: nat): (n: nat)
    requires i <= |s|
    ensures i <= n <= |s|
    ensures forall k :: i <= k < n ==> IsSpace(s[k])
    ensures n < |s| ==> !IsSpace(s[n])
    decreases |s| - i
  {
    if i < |s| && IsSpace(s[i]) then SkipSpaceUp(s, i + 1) else i
  }

  /** Scanning down from `j`, never below `lo`: the end of the text once the
      trailing white space above `lo` is dropped. */
  function SkipSpaceDown(s: string, lo: nat, j: nat): (n: nat)
    requires lo <= j <= |s|
    ensures lo <= n <= j
    ensures forall k :: n <= k < j ==> IsSpace(s[k])
    ensures lo < n ==> !IsSpace(s[n - 1])
    decreases j
  {
    if lo < j && IsSpace(s[j - 1]) then SkipSpaceDown(s, lo, j - 1) else j
  }

  /** `r` sits at offset `a` of `s` and only white space surrounds it. */
  ghost predicate StrippedAt(s: string, r: string, a: int) {
    && 0 <= a && a + |r| <= |s|
    && s[a..a + |r|] == r
    && (forall i :: 0 <= i < a ==> IsSpace(s[i]))
    && (forall i :: a + |r| <= i < |s| ==> IsSpace(s[i]))
  }

  /** Python's `s.strip()`: skip the leading white space, then the trailing
      white space that remains. */
  function Strip(s: string): (r: string)
    ensures exists a :: StrippedAt(s, r, a)
    ensures r != [] ==> !IsSpace(r[0]) && !IsSpace(r[|r| - 1])
  {
    var a := SkipSpaceUp(s, 0);
    var b := SkipSpaceDown(s, a, |s|);
    assert StrippedAt(s, s[a..b], a);
    s[a..b]
  }

  /** `s.strip()` is empty exactly when `s` is all white space. */
  lemma StripEmpty(s: string)
    ensures Strip(s) == [] <==> forall i :: 0 <= i < |s| ==> IsSpace(s[i])
  {
    var r := Strip(s);
    var a :| StrippedAt(s, r, a);
    if r != [] {
      assert s[a] == r[0];
    }
  }

  /** Stripping twice changes nothing more than stripping once. */
  lemma StripIdempotent(s: string)
    ensures Strip(Strip(s)) == Strip(s)
  {
    var r := Strip(s);
    if r != [] {
      assert SkipSpaceUp(r, 0) == 0;
      assert SkipSpaceDown(r, 0, |r|) == |r|;
    }
  }

  /** ASCII case folding of one character. */
  function LowerChar(c: char): char {
    if 'A' <= c <= 'Z' then (c as int + 32) as char else c
  }

  /** Python's `s.lower()`, restricted to the ASCII letters. */
  function Lower(s: string): string {
    seq(|s|, i requires 0 <= i < |s| => LowerChar(s[i]))
  }

  /** Lower-casing keeps the length, leaves no upper-case ASCII letter,
      replaces each upper-case letter by its lower-case partner and keeps
      every other character. */
  lemma LowerSpec(s: string)
    ensures |Lower(s)| == |s|
    ensures forall i :: 0 <= i < |s| ==> !('A' <= Lower(s)[i] <= 'Z')
    ensures forall i :: 0 <= i < |s| && 'A' <= s[i] <= 'Z' ==>
      'a' <= Lower(s)[i] <= 'z' && Lower(s)[i] as int - 'a' as int == s[i] as int - 'A' as int
    ensures forall i :: 0 <= i < |s| && !('A' <= s[i] <= 'Z') ==> Lower(s)[i] == s[i]
  {
  }

  /** Lower-casing commutes with slicing. */
  lemma LowerSlice(s: string, i: int, j: int)
    requires 0 <= i <= j <= |s|
    ensures Lower(s)[i..j] == Lower(s[i..j])
  {
    assert forall n :: 0 <= n < j - i ==> Lower(s)[i..j][n] == Lower(s[i..j])[n];
  }

  /** Python's `k in s`: some slice of `s` equals `k` (the empty string
      occurs in every string). */
  predicate Contains(s: string, k: string)
    decreases |s|
  {
    |k| <= |s| && (s[..|k|] == k || Contains(s[1..], k))
  }

  /** `k` occurs in `s` starting at index `i`. */
  ghost predicate OccursAt(s: string, k: string, i: int) {
    0 <= i && i + |k| <= |s| && s[i..i + |k|] == k
  }

  /** An occurrence at a known position makes `Contains` hold. */
  lemma {:induction false} OccursContains(s: string, k: string, i: int)
    requires OccursAt(s, k, i)
    ensures Contains(s, k)
    decreases i
  {
    if i > 0 && s[..|k|] != k {
      assert s[1..][i - 1..i - 1 + |k|] == s[i..i + |k|];
      OccursContains(s[1..], k, i - 1);
    }
  }

  /** `Contains` yields the position of an occurrence. */
  lemma {:induction false} ContainsOccurs(s: string, k: string) returns (i: int)
    requires Contains(s, k)
    ensures OccursAt(s, k, i)
    decreases |s|
  {
    if s[..|k|] == k {
      i := 0;
    } else {
      var j := ContainsOccurs(s[1..], k);
      assert s[1..][j..j + |k|] == s[j + 1..j + 1 + |k|];
      i := j + 1;
    }
  }

  /** The scanning definition of `Contains` agrees with the positional one. */
  lemma ContainsIff(s: string, k: string)
    ensures Contains(s, k) <==> exists i :: OccursAt(s, k, i)
  {
    if Contains(s, k) {
      var i := ContainsOccurs(s, k);
    }
    if exists i :: OccursAt(s, k, i) {
      var i :| OccursAt(s, k, i);
      OccursContains(s, k, i);
    }
  }

  /** A string placed between two others is contained in the result. */
  lemma ContainsInfix(a: string, b: string, c: string)
    ensures Contains(a + b + c, b)
  {
    assert (a + b + c)[|a|..|a| + |b|] == b;
    OccursContains(a + b + c, b, |a|);
  }

  /** A string contained in the middle part is contained in the whole. */
  lemma ContainsWithin(a: string, b: string, c: string, k: string)
    requires Contains(b, k)
    ensures Contains(a + b + c, k)
  {
    var i := ContainsOccurs(b, k);
    assert (a + b + c)[|a| + i..|a| + i + |k|] == b[i..i + |k|];
    OccursContains(a + b + c, k, |a| + i);
  }

  /** Every string of `items` contained in the middle part is contained in
      the whole. */
  lemma ContainsAllWithin(a: string, b: string, c: string, items: seq<string>)
    requires forall i :: 0 <= i < |items| ==> Contains(b, items[i])
    ensures forall i :: 0 <= i < |items| ==> Contains(a + b + c, items[i])
  {
    forall i | 0 <= i < |items|
      ensures Contains(a + b + c, items[i])
    {
      ContainsWithin(a, b, c, items[i]);
    }
  }

  /** The parts of `parts`, one after another. */
  function Concat(parts: seq<string>): string {
    if parts == [] then "" else parts[0] + Concat(parts[1..])
  }

  /** The concatenation split around any one of its parts. */
  lemma {:induction false} ConcatSplit(parts: seq<string>, i: nat)
    requires i < |parts|
    ensures Concat(parts) == Concat(parts[..i]) + parts[i] + Concat(parts[i + 1..])
  {
    if i > 0 {
      ConcatSplit(parts[1..], i - 1);
      assert parts[1..][..i - 1] == parts[1..i];
      assert parts[1..][i - 1] == parts[i];
      assert parts[1..][i..] == parts[i + 1..];
      assert parts[..i] == [parts[0]] + parts[1..i];
      assert Concat(parts[..i]) == parts[0] + Concat(parts[1..i]);
    } else {
      assert parts[..0] == [];
      assert parts[1..] == parts[i + 1..];
    }
  }

  /** Every part is contained in the concatenation. */
  lemma ConcatContains(parts: seq<string>)
    ensures forall i :: 0 <= i < |parts| ==> Contains(Concat(parts), parts[i])
  {
    forall i | 0 <= i < |parts|
      ensures Contains(Concat(parts), parts[i])
    {
      ConcatSplit(parts, i);
      ContainsInfix(Concat(parts[..i]), parts[i], Concat(parts[i + 1..]));
    }
  }

  /** Containment is transitive: an occurrence of `b` inside an occurrence of
      `a` is an occurrence of `b` in `s`. */
  lemma ContainsTransitive(s: string, a: string, b: string)
    requires Contains(s, a) && Contains(a, b)
    ensures Contains(s, b)
  {
    var i := ContainsOccurs(s, a);
    var j := ContainsOccurs(a, b);
    assert a == s[i..i + |a|];
    assert forall n :: 0 <= n < |b| ==> b[n] == a[j + n] == s[i + j + n];
    assert s[i + j..i + j + |b|] == b;
    OccursContains(s, b, i + j);
  }

  /** Lower-casing both sides keeps an occurrence an occurrence; with a
      lower-case needle this is the case-insensitive match. */
  lemma LowerContains(s: string, k: string)
    requires Contains(s, k)
    ensures Contains(Lower(s), Lower(k))
  {
    var i := ContainsOccurs(s, k);
    LowerSlice(s, i, i + |k|);
    OccursContains(Lower(s), Lower(k), i);
  }
}
