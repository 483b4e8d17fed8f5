/**
 * The JavaScript string built-ins the client and the store use: `slice` (with
 * negative positions counted from the end, and clamping), `indexOf`,
 * `includes`, `split` on a non-empty separator, and the decimal rendering of an
 * integer in a template literal.
 */
module JsStrings {

  // ---------------------------------------------------------------- slice

  /** How `slice` turns a position into an index: negative counts from the end, then clamp to `[0, len]`. */
  function Position(p: int, len: nat): (r: nat)
    ensures r <= len
    ensures 0 <= p ==> r == if p <= len then p else len
    ensures p < 0 ==> r == if len + p < 0 then 0 else len + p
  {
    if p < 0 then (if len + p < 0 then 0 else len + p)
    else if p <= len then p
    else len
  }

  /** `s.slice(start, end)`: empty when the end comes before the start. */
  function Slice(s: string, start: int, end: int): (r: string)
    ensures |r| <= |s|
    ensures Position(start, |s|) <= Position(end, |s|) ==> r == s[Position(start, |s|)..Position(end, |s|)]
    ensures Position(end, |s|) < Position(start, |s|) ==> r == ""
  {
    var i, j := Position(start, |s|), Position(end, |s|);
    if i <= j then s[i..j] else ""
  }

  /** `s.slice(start)` */
  function SliceFrom(s: string, start: int): (r: string)
    ensures |r| <= |s|
  {
    Slice(s, start, |s|)
  }

  /** `s.slice(0, n)` keeps the first `n` characters, or all of them. */
  lemma SlicePrefix(s: string, n: nat)
    ensures Slice(s, 0, n) == s[..if n <= |s| then n else |s|]
  {
  }

  /** `s.slice(-n)` keeps the last `n` characters, or all of them. */
  lemma SliceSuffix(s: string, n: int)
    requires n > 0
    ensures SliceFrom(s, -n) == s[if n <= |s| then |s| - n else 0..]
  {
  }

  // ---------------------------------------------------------------- indexOf / includes

  /** `sub` occurs in `s` starting at index `i`. */
  ghost predicate OccursAt(s: string, sub: string, i: int) {
    0 <= i && i + |sub| <= |s| && s[i..i + |sub|] == sub
  }

  /** `s.indexOf(sub, from)`: the first occurrence at or after `from`, or -1. */
  function IndexOfFrom(s: string, sub: string, from: nat): (r: int)
    requires from <= |s|
    ensures r == -1 || (from <= r && r + |sub| <= |s|)
    ensures r >= 0 ==> OccursAt(s, sub, r) && forall j | from <= j < r :: !OccursAt(s, sub, j)
    ensures r == -1 <==> forall j | from <= j :: !OccursAt(s, sub, j)
    decreases |s| - from
  {
    if from + |sub| > |s| then -1
    else if s[from..from + |sub|] == sub then assert OccursAt(s, sub, from); from
    else IndexOfFrom(s, sub, from + 1)
  }

  /** `s.indexOf(sub)` */
  function IndexOf(s: string, sub: string): (r: int)
    ensures r == -1 || (0 <= r && r + |sub| <= |s|)
    ensures r >= 0 ==> OccursAt(s, sub, r) && forall j | 0 <= j < r :: !OccursAt(s, sub, j)
    ensures r == -1 <==> forall j :: !OccursAt(s, sub, j)
  {
    IndexOfFrom(s, sub, 0)
  }

  /** `s.includes(sub)` */
  function Contains(s: string, sub: string): (r: bool)
    ensures r <==> exists i :: OccursAt(s, sub, i)
  {
    IndexOf(s, sub) >= 0
  }

  /** When the first occurrence is known, `indexOf` finds exactly it. */
  lemma IndexOfIs(s: string, sub: string, i: nat)
    requires OccursAt(s, sub, i)
    requires forall j | 0 <= j < i :: !OccursAt(s, sub, j)
    ensures IndexOf(s, sub) == i
  {
  }

  /** A one-character needle is found at the first index holding that character. */
  lemma IndexOfChar(s: string, c: char, i: nat)
    requires i < |s| && s[i] == c
    requires forall j | 0 <= j < i :: s[j] != c
    ensures IndexOf(s, [c]) == i
  {
    forall j | 0 <= j < i ensures !OccursAt(s, [c], j) {
      assert s[j..j + 1][0] == s[j];
    }
    assert s[i..i + 1] == [c];
    IndexOfIs(s, [c], i);
  }

  /** A one-character needle that does not occur is not found. */
  lemma IndexOfCharAbsent(s: string, c: char)
    requires forall j | 0 <= j < |s| :: s[j] != c
    ensures IndexOf(s, [c]) == -1
  {
    forall j | 0 <= j < |s| ensures !OccursAt(s, [c], j) {
      assert s[j..j + 1][0] == s[j];
    }
  }

  /** An occurrence inside a prefix `s[..n]` is an occurrence in `s`. */
  lemma OccursInPrefix(s: string, sub: string, n: nat, j: int)
    requires n <= |s| && OccursAt(s[..n], sub, j)
    ensures OccursAt(s, sub, j)
  {
    assert s[..n][j..j + |sub|] == s[j..j + |sub|];
  }

  /** An occurrence inside a suffix `s[k..]` is an occurrence in `s`, shifted by `k`. */
  lemma OccursInSuffix(s: string, sub: string, k: nat, j: int)
    requires k <= |s|
    ensures OccursAt(s[k..], sub, j) <==> j >= 0 && OccursAt(s, sub, k + j)
  {
    if 0 <= j && j + |sub| <= |s| - k {
      assert s[k..][j..j + |sub|] == s[k + j..k + j + |sub|];
    }
  }

  /** A string is its prefix, a middle slice and its suffix, put back together. */
  lemma SliceThree(s: string, i: nat, j: nat)
    requires i <= j <= |s|
    ensures s == s[..i] + s[i..j] + s[j..]
  {
  }

  /** An occurrence of `pre + sub + post` holds an occurrence of `sub`, `|pre|` characters in. */
  lemma OccursInside(s: string, pre: string, sub: string, post: string, i: int)
    requires OccursAt(s, pre + sub + post, i)
    ensures OccursAt(s, sub, i + |pre|)
  {
    var w := pre + sub + post;
    assert w[|pre|..|pre| + |sub|] == sub;
    forall k | 0 <= k < |sub| ensures s[i + |pre| + k] == sub[k] {
      assert s[i..i + |w|][|pre| + k] == w[|pre| + k];
    }
  }

  // ---------------------------------------------------------------- split / join

  /** `s.split(sep)` for a non-empty separator: the pieces between successive occurrences. */
  function Split(s: string, sep: string): (parts: seq<string>)
    requires |sep| > 0
    ensures |parts| >= 1
    decreases |s|
  {
    var i := IndexOf(s, sep);
    if i < 0 then [s] else [s[..i]] + Split(s[i + |sep|..], sep)
  }

  /** `parts.join(sep)` */
  function Join(parts: seq<string>, sep: string): (r: string)
    decreases |parts|
  {
    if parts == [] then ""
    else if |parts| == 1 then parts[0]
    else parts[0] + sep + Join(parts[1..], sep)
  }

  /** Joining the pieces with the separator gives back the original string. */
  lemma {:induction false} SplitJoin(s: string, sep: string)
    requires |sep| > 0
    ensures Join(Split(s, sep), sep) == s
    decreases |s|
  {
    var i := IndexOf(s, sep);
    if i >= 0 {
      var rest := s[i + |sep|..];
      var parts := Split(rest, sep);
      assert Split(s, sep) == [s[..i]] + parts;
      SplitJoin(rest, sep);
      assert Join([s[..i]] + parts, sep) == s[..i] + sep + Join(parts, sep) by {
        assert ([s[..i]] + parts)[1..] == parts;
      }
      assert s == s[..i] + sep + rest by {
        assert s[i..i + |sep|] == sep;
        assert s == s[..i] + s[i..i + |sep|] + s[i + |sep|..];
      }
    }
  }

  /** No piece of a split contains the separator. */
  lemma {:induction false} SplitPartsFree(s: string, sep: string)
    requires |sep| > 0
    ensures forall k | 0 <= k < |Split(s, sep)| :: !Contains(Split(s, sep)[k], sep)
    decreases |s|
  {
    var i := IndexOf(s, sep);
    if i >= 0 {
      var rest := s[i + |sep|..];
      SplitPartsFree(rest, sep);
      forall j | OccursAt(s[..i], sep, j) ensures false {
        OccursInPrefix(s, sep, i, j);
      }
    }
  }

  /** The first piece is everything before the first occurrence, or the whole string. */
  lemma SplitFirst(s: string, sep: string)
    requires |sep| > 0
    ensures IndexOf(s, sep) < 0 ==> Split(s, sep) == [s]
    ensures IndexOf(s, sep) >= 0 ==>
      && |Split(s, sep)| >= 2
      && Split(s, sep)[0] == s[..IndexOf(s, sep)]
      && Split(s, sep)[1..] == Split(s[IndexOf(s, sep) + |sep|..], sep)
  {
  }

  /** Splitting on a one-character separator peels off a leading word that does not contain it. */
  lemma SplitWord(w: string, c: char, rest: string)
    requires forall i | 0 <= i < |w| :: w[i] != c
    ensures Split(w + [c] + rest, [c]) == [w] + Split(rest, [c])
  {
    var s := w + [c] + rest;
    IndexOfChar(s, c, |w|);
    assert s[..|w|] == w;
    assert s[|w| + 1..] == rest;
  }

  /** A string without the one-character separator splits into itself. */
  lemma SplitLastWord(w: string, c: char)
    requires forall i | 0 <= i < |w| :: w[i] != c
    ensures Split(w, [c]) == [w]
  {
    IndexOfCharAbsent(w, c);
  }

  /** A leading one-character separator splits off an empty piece. */
  lemma SplitLeading(c: char, rest: string)
    ensures Split([c] + rest, [c]) == [""] + Split(rest, [c])
  {
    var s := [c] + rest;
    IndexOfChar(s, c, 0);
    assert s[1..] == rest;
  }

  lemma Regroup<T>(a: seq<T>, b: seq<T>, d: seq<T>, e: seq<T>)
    ensures a + b + d + e == a + (b + d + e)
  {
  }

  /** `c w c x`, with neither `w` nor `x` holding `c`, splits at `c` into an empty piece, `w` and `x`. */
  lemma SplitTwoSeparators(c: char, w: string, x: string)
    requires forall i | 0 <= i < |w| :: w[i] != c
    requires forall i | 0 <= i < |x| :: x[i] != c
    ensures Split([c] + w + [c] + x, [c]) == ["", w, x]
  {
    var rest := w + [c] + x;
    Regroup([c], w, [c], x);
    SplitLeading(c, rest);
    SplitWord(w, c, x);
    SplitLastWord(x, c);
  }

  // ---------------------------------------------------------------- integers in templates

  function DigitChar(d: nat): (c: char)
    requires d < 10
    ensures '0' <= c <= '9'
  {
    "0123456789"[d]
  }

  function DigitValue(c: char): (d: nat)
    requires '0' <= c <= '9'
    ensures d < 10 && DigitChar(d) == c
  {
    c as int - '0' as int
  }

  /** The decimal digits of `n`, most significant first, without leading zeros. */
  function NatToString(n: nat): (s: string)
    ensures |s| >= 1
    ensures forall i | 0 <= i < |s| :: '0' <= s[i] <= '9'
    ensures |s| > 1 ==> s[0] != '0'
    decreases n
  {
    if n < 10 then [DigitChar(n)] else NatToString(n / 10) + [DigitChar(n % 10)]
  }

  /** `${n}` for an integer `n`. */
  function IntToString(n: int): (s: string)
    ensures |s| >= 1
    ensures forall i | 0 <= i < |s| :: s[i] == '-' || '0' <= s[i] <= '9'
    ensures (n < 0) <==> s[0] == '-'
  {
    if n < 0 then "-" + NatToString(-n) else NatToString(n)
  }

  /** Reads a string of decimal digits. */
  function ParseNat(s: string): (n: nat)
    requires forall i | 0 <= i < |s| :: '0' <= s[i] <= '9'
    decreases |s|
  {
    if s == [] then 0 else ParseNat(s[..|s| - 1]) * 10 + DigitValue(s[|s| - 1])
  }

  /** Reads an optional minus sign and decimal digits. */
  function ParseInt(s: string): (n: int)
    requires forall i | 0 <= i < |s| :: s[i] == '-' || '0' <= s[i] <= '9'
    requires forall i | 0 < i < |s| :: s[i] != '-'
  {
    if |s| > 0 && s[0] == '-' then -(ParseNat(s[1..]) as int) else ParseNat(s)
  }

  lemma {:induction false} ParseNatToString(n: nat)
    ensures ParseNat(NatToString(n)) == n
    decreases n
  {
    if n >= 10 {
      ParseNatToString(n / 10);
      var s := NatToString(n);
      assert s[..|s| - 1] == NatToString(n / 10);
      DigitRoundTrip(n % 10);
      assert n == (n / 10) * 10 + n % 10;
    } else {
      DigitRoundTrip(n);
    }
  }

  lemma DigitRoundTrip(d: nat)
    requires d < 10
    ensures DigitValue(DigitChar(d)) == d
  {
  }

  /** Reading back the rendering of an integer gives the integer. */
  lemma ParseIntToString(n: int)
    ensures ParseInt(IntToString(n)) == n
  {
    if n < 0 {
      ParseNatToString(-n);
      assert IntToString(n)[1..] == NatToString(-n);
    } else {
      ParseNatToString(n);
    }
  }

  /** Distinct integers render differently. */
  lemma IntToStringInjective(a: int, b: int)
    requires IntToString(a) == IntToString(b)
    ensures a == b
  {
    ParseIntToString(a);
    ParseIntToString(b);
  }
}
