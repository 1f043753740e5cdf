/** Value wrappers and the string operations the Python and JavaScript code
    relies on (strip/trim, startswith/endswith, includes, replace, split,
    lower/title case, slicing with an ellipsis). */
module Common {

  datatype Option<+T> = None | Some(value: T) {
    /** `d.get(k, default)` / `x ?? default` */
    function GetOr(default: T): T {
      if Some? then value else default
    }
  }

  datatype Result<+T, +E> = Ok(value: T) | Err(error: E)

  /** Truthiness of an optional string field in both languages: absent,
      `null` and the empty string are false. */
  predicate Truthy(o: Option<string>) {
    o.Some? && o.value != []
  }

  /** `a || b` on optional strings. */
  function Or(a: Option<string>, b: Option<string>): Option<string> {
    if Truthy(a) then a else b
  }

  // ---------------------------------------------------------------------
  // Prefixes, suffixes, occurrences
  // ---------------------------------------------------------------------

  predicate StartsWith(s: string, p: string) {
    |p| <= |s| && s[..|p|] == p
  }

  predicate EndsWith(s: string, p: string) {
    |p| <= |s| && s[|s| - |p|..] == p
  }

  predicate OccursAt(s: string, p: string, i: int) {
    0 <= i && i + |p| <= |s| && s[i..i + |p|] == p
  }

  /** `p in s` (Python) / `s.includes(p)` (JavaScript) */
  predicate Contains(s: string, p: string) {
    exists i | 0 <= i <= |s| - |p| :: OccursAt(s, p, i)
  }

  /** Leftmost occurrence of `p` in `s` at or after `from`. */
  function IndexFrom(s: string, p: string, from: nat): (r: Option<nat>)
    requires from <= |s|
    ensures r.Some? ==> from <= r.value && OccursAt(s, p, r.value)
    ensures r.Some? ==> forall k :: from <= k < r.value ==> !OccursAt(s, p, k)
    ensures r.None? ==> forall k :: from <= k ==> !OccursAt(s, p, k)
    decreases |s| - from
  {
    if OccursAt(s, p, from) then Some(from)
    else if from == |s| then None
    else IndexFrom(s, p, from + 1)
  }

  lemma ContainsIffFound(s: string, p: string)
    ensures Contains(s, p) <==> IndexFrom(s, p, 0).Some?
  {
    var r := IndexFrom(s, p, 0);
    if r.Some? {
      assert 0 <= r.value <= |s| - |p| && OccursAt(s, p, r.value);
    }
  }

  /** `s.replace(p, q)` in JavaScript with a string pattern: the first
      occurrence only. */
  function ReplaceFirst(s: string, p: string, q: string): (r: string)
    ensures !Contains(s, p) ==> r == s
  {
    ContainsIffFound(s, p);
    match IndexFrom(s, p, 0)
    case None => s
    case Some(i) => s[..i] + q + s[i + |p|..]
  }

  /** With an occurrence at `i` and none before it, that occurrence is the
      one replaced and the text around it is kept. */
  lemma ReplaceFirstLeftmost(s: string, p: string, q: string, i: nat)
    requires OccursAt(s, p, i)
    requires forall k :: 0 <= k < i ==> !OccursAt(s, p, k)
    ensures ReplaceFirst(s, p, q) == s[..i] + q + s[i + |p|..]
  {
    assert IndexFrom(s, p, 0) == Some(i);
  }

  /** `s.replace(p, q)` in Python: every non-overlapping occurrence, left to
      right. */
  function ReplaceAll(s: string, p: string, q: string): (r: string)
    requires p != []
    decreases |s|
  {
    if |s| < |p| then s
    else if s[..|p|] == p then q + ReplaceAll(s[|p|..], p, q)
    else [s[0]] + ReplaceAll(s[1..], p, q)
  }

  /** An occurrence at the front is replaced, and the scan resumes after it. */
  lemma ReplaceAllHit(p: string, s: string, q: string)
    requires p != []
    ensures ReplaceAll(p + s, p, q) == q + ReplaceAll(s, p, q)
  {
    assert (p + s)[..|p|] == p;
    assert (p + s)[|p|..] == s;
  }

  /** Without an occurrence at the front, the first character is kept and
      the scan moves on by one. */
  lemma ReplaceAllMiss(s: string, p: string, q: string)
    requires p != [] && s != [] && !OccursAt(s, p, 0)
    ensures ReplaceAll(s, p, q) == [s[0]] + ReplaceAll(s[1..], p, q)
  {
    if |s| >= |p| {
      assert s[..|p|] == s[0..|p|];
    }
  }

  /** The leftmost occurrence is replaced by `q`, the text before it is kept,
      and the rest is replaced in turn. */
  lemma {:induction false} ReplaceAllLeftmost(a: string, p: string, q: string, b: string)
    requires p != []
    requires forall k :: 0 <= k < |a| ==> !OccursAt(a + p + b, p, k)
    ensures ReplaceAll(a + p + b, p, q) == a + q + ReplaceAll(b, p, q)
    decreases |a|
  {
    var s := a + p + b;
    if a == [] {
      assert s == p + b;
      ReplaceAllHit(p, b, q);
    } else {
      assert !OccursAt(s, p, 0);
      ReplaceAllMiss(s, p, q);
      assert s[1..] == a[1..] + p + b;
      NoEarlierInTail(a, p, b);
      ReplaceAllLeftmost(a[1..], p, q, b);
      assert [s[0]] + a[1..] == a;
    }
  }

  /** Dropping the first character keeps the occurrence of `p` after `a`
      the leftmost one. */
  lemma NoEarlierInTail(a: string, p: string, b: string)
    requires a != []
    requires forall k :: 0 <= k < |a| ==> !OccursAt(a + p + b, p, k)
    ensures forall k :: 0 <= k < |a| - 1 ==> !OccursAt(a[1..] + p + b, p, k)
  {
    var s := a + p + b;
    assert s[1..] == a[1..] + p + b;
    forall k | 0 <= k < |a| - 1
      ensures !OccursAt(a[1..] + p + b, p, k)
    {
      assert !OccursAt(s, p, k + 1);
      assert s[1..][k..k + |p|] == s[k + 1..k + 1 + |p|];
    }
  }

  /** Text in which the pattern does not occur is returned unchanged. */
  lemma {:induction false} ReplaceAllNone(s: string, p: string, q: string)
    requires p != [] && !Contains(s, p)
    ensures ReplaceAll(s, p, q) == s
    decreases |s|
  {
    if s != [] {
      AbsentFromTail(s, p);
      ReplaceAllMiss(s, p, q);
      ReplaceAllNone(s[1..], p, q);
    }
  }

  /** A pattern absent from `s` is absent from its front and its tail. */
  lemma AbsentFromTail(s: string, p: string)
    requires s != [] && !Contains(s, p)
    ensures !OccursAt(s, p, 0) && !Contains(s[1..], p)
  {
    forall i | 0 <= i <= |s[1..]| - |p|
      ensures !OccursAt(s[1..], p, i)
    {
      assert !OccursAt(s, p, i + 1);
      assert s[1..][i..i + |p|] == s[i + 1..i + 1 + |p|];
    }
  }

  /** A pattern that begins with a character absent from `s` is never
      replaced. */
  lemma {:induction false} ReplaceAllAbsent(s: string, p: string, q: string)
    requires p != [] && p[0] !in s
    ensures ReplaceAll(s, p, q) == s
    decreases |s|
  {
    if |s| >= |p| {
      assert s[..|p|][0] == s[0] != p[0];
      assert s[1..] == s[1..];
      assert forall c :: c in s[1..] ==> c in s;
      ReplaceAllAbsent(s[1..], p, q);
    }
  }

  // ---------------------------------------------------------------------
  // Whitespace and stripping
  // ---------------------------------------------------------------------

  /** Python's `str.isspace`: the characters `str.strip()` removes. */
  predicate IsPyWhitespace(c: char) {
    ('\t' <= c <= '\r') || ('\U{1C}' <= c <= ' ') || c == '\U{85}' || c == '\U{A0}'
    || c == '\U{1680}' || ('\U{2000}' <= c <= '\U{200A}') || c == '\U{2028}'
    || c == '\U{2029}' || c == '\U{202F}' || c == '\U{205F}' || c == '\U{3000}'
  }

  /** ECMAScript WhiteSpace and LineTerminator: what `String.prototype.trim`
      removes and what `\s` matches in a regular expression. */
  predicate IsJsWhitespace(c: char) {
    ('\t' <= c <= '\r') || c == ' ' || c == '\U{A0}' || c == '\U{1680}'
    || ('\U{2000}' <= c <= '\U{200A}') || c == '\U{2028}' || c == '\U{2029}'
    || c == '\U{202F}' || c == '\U{205F}' || c == '\U{3000}' || c == '\U{FEFF}'
  }

  function StripLeft(s: string, drop: char -> bool): (r: string)
    ensures |r| <= |s| && r == s[|s| - |r|..]
    ensures r == [] || !drop(r[0])
    ensures forall k :: 0 <= k < |s| - |r| ==> drop(s[k])
    decreases |s|
  {
    if s != [] && drop(s[0]) then
      var r := StripLeft(s[1..], drop);
      assert s[1..][|s| - 1 - |r|..] == s[|s| - |r|..];
      assert forall k :: 0 <= k < |s| - |r| ==> drop(s[k]) by {
        forall k | 0 <= k < |s| - |r| ensures drop(s[k]) {
          if k > 0 { assert s[k] == s[1..][k - 1]; }
        }
      }
      r
    else s
  }

  function StripRight(s: string, drop: char -> bool): (r: string)
    ensures |r| <= |s| && r == s[..|r|]
    ensures r == [] || !drop(r[|r| - 1])
    ensures forall k :: |r| <= k < |s| ==> drop(s[k])
    decreases |s|
  {
    if s != [] && drop(s[|s| - 1]) then
      var r := StripRight(s[..|s| - 1], drop);
      assert s[..|s| - 1][..|r|] == s[..|r|];
      assert forall k :: |r| <= k < |s| ==> drop(s[k]) by {
        forall k | |r| <= k < |s| ensures drop(s[k]) {
          if k < |s| - 1 { assert s[k] == s[..|s| - 1][k]; }
        }
      }
      r
    else s
  }

  /** Neither end of `s` is a character `drop` accepts. */
  predicate Unpadded(s: string, drop: char -> bool) {
    s == [] || (!drop(s[0]) && !drop(s[|s| - 1]))
  }

  /** `s.strip(chars)`: removes every leading and trailing character that
      `drop` accepts; the result is a contiguous slice of `s` whose ends are
      kept characters. */
  function Strip(s: string, drop: char -> bool): (r: string)
    ensures exists a :: OccursAt(s, r, a)
    ensures Unpadded(r, drop)
  {
    var l := StripLeft(s, drop);
    var r := StripRight(l, drop);
    PrefixOfSuffix(s, l, r);
    r
  }

  /** A prefix of a suffix of `s` occurs in `s` where the suffix starts. */
  lemma PrefixOfSuffix(s: string, l: string, r: string)
    requires |l| <= |s| && l == s[|s| - |l|..]
    requires |r| <= |l| && r == l[..|r|]
    ensures OccursAt(s, r, |s| - |l|)
    ensures r != [] ==> r[0] == l[0]
  {
    assert s[|s| - |l|..|s| - |l| + |r|] == l[..|r|];
  }

  /** Stripping is idempotent. */
  lemma StripIdempotent(s: string, drop: char -> bool)
    ensures Strip(Strip(s, drop), drop) == Strip(s, drop)
  {
    var t := Strip(s, drop);
    assert StripLeft(t, drop) == t;
  }

  /** A string whose ends are kept characters is its own strip. */
  lemma StripKeeps(s: string, drop: char -> bool)
    requires Unpadded(s, drop)
    ensures Strip(s, drop) == s
  {
    assert StripLeft(s, drop) == s;
  }

  /** Python `s.strip()` */
  function PyStrip(s: string): string {
    Strip(s, IsPyWhitespace)
  }

  /** JavaScript `s.trim()` */
  function JsTrim(s: string): string {
    Strip(s, IsJsWhitespace)
  }

  // ---------------------------------------------------------------------
  // Case
  // ---------------------------------------------------------------------

  predicate IsAsciiLetter(c: char) {
    ('A' <= c <= 'Z') || ('a' <= c <= 'z')
  }

  function LowerChar(c: char): char {
    if 'A' <= c <= 'Z' then (c as int + 32) as char else c
  }

  function UpperChar(c: char): char {
    if 'a' <= c <= 'z' then (c as int - 32) as char else c
  }

  /** `s.lower()` / `s.toLowerCase()` on ASCII letters. */
  function AsciiLower(s: string): (r: string)
    ensures |r| == |s|
    ensures forall i :: 0 <= i < |s| ==> r[i] == LowerChar(s[i])
  {
    seq(|s|, i requires 0 <= i < |s| => LowerChar(s[i]))
  }

  /** `s.charAt(0).toUpperCase() + s.slice(1)` */
  function Capitalize(s: string): (r: string)
    ensures |r| == |s|
    ensures s != [] ==> r[0] == UpperChar(s[0]) && r[1..] == s[1..]
  {
    if s == [] then [] else [UpperChar(s[0])] + s[1..]
  }

  /** Python `s.title()` on ASCII text: a letter is upper-cased when it does
      not follow a letter and lower-cased when it does. */
  function PyTitle(s: string): (r: string)
    ensures |r| == |s|
  {
    seq(|s|, i requires 0 <= i < |s| =>
      if !IsAsciiLetter(s[i]) then s[i]
      else if i == 0 || !IsAsciiLetter(s[i - 1]) then UpperChar(s[i])
      else LowerChar(s[i]))
  }

  // ---------------------------------------------------------------------
  // Slicing with an ellipsis
  // ---------------------------------------------------------------------

  /** `s.length > n ? s.substring(0, n) + "..." : s` (and the Python
      `s[:n] + '...' if len(s) > n else s`). */
  function Ellipsize(s: string, limit: nat): (r: string)
    ensures |s| <= limit ==> r == s
    ensures |s| > limit ==> |r| == limit + 3 && StartsWith(s, r[..limit]) && EndsWith(r, "...")
    ensures |r| <= limit + 3
  {
    if |s| > limit then s[..limit] + "..." else s
  }

  // ---------------------------------------------------------------------
  // Splitting on one character
  // ---------------------------------------------------------------------

  /** `s.split(sep)` in both languages for a one-character separator: the
      pieces between separators, empty pieces included. */
  function Split(s: string, sep: char): (parts: seq<string>)
    ensures |parts| >= 1
    ensures forall k :: 0 <= k < |parts| ==> sep !in parts[k]
    decreases |s|
  {
    if s == [] then [[]]
    else
      var rest := Split(s[1..], sep);
      if s[0] == sep then [[]] + rest
      else [[s[0]] + rest[0]] + rest[1..]
  }

  function Join(parts: seq<string>, sep: char): string
    decreases |parts|
  {
    if parts == [] then []
    else if |parts| == 1 then parts[0]
    else parts[0] + [sep] + Join(parts[1..], sep)
  }

  /** Splitting loses nothing: joining the pieces gives the string back. */
  lemma {:induction false} JoinSplit(s: string, sep: char)
    ensures Join(Split(s, sep), sep) == s
    decreases |s|
  {
    if s != [] {
      var rest := Split(s[1..], sep);
      JoinSplit(s[1..], sep);
      if s[0] == sep {
        assert Split(s, sep) == [[]] + rest;
        assert ([[]] + rest)[1..] == rest;
      } else {
        var parts := Split(s, sep);
        assert parts == [[s[0]] + rest[0]] + rest[1..];
        if |rest| == 1 {
          assert Join(parts, sep) == [s[0]] + rest[0];
        } else {
          assert parts[1..] == rest[1..];
          assert Join(rest, sep) == rest[0] + [sep] + Join(rest[1..], sep);
        }
      }
    }
  }

  /** The last piece of `s.split(sep)` holds no separator and ends `s`. */
  lemma {:induction false} LastPieceIsSuffix(s: string, sep: char)
    ensures EndsWith(s, Split(s, sep)[|Split(s, sep)| - 1])
    decreases |s|
  {
    if s != [] {
      LastPieceIsSuffix(s[1..], sep);
      var rest := Split(s[1..], sep);
      var last := rest[|rest| - 1];
      assert s[1..][|s| - 1 - |last|..] == last;
      assert s[|s| - |last|..] == s[1..][|s| - 1 - |last|..];
      if s[0] != sep && |rest| == 1 {
        JoinSplit(s[1..], sep);
        assert rest[0] == s[1..];
        assert Split(s, sep) == [[s[0]] + rest[0]];
        assert s == [s[0]] + s[1..];
      }
    }
  }

  /** A string without the separator splits into itself. */
  lemma {:induction false} SplitWithoutSeparator(s: string, sep: char)
    requires sep !in s
    ensures Split(s, sep) == [s]
    decreases |s|
  {
    if s != [] {
      SplitWithoutSeparator(s[1..], sep);
      assert [s[0]] + s[1..] == s;
    }
  }

  /** The last piece of a separator-free word, alone or after a separator,
      is that word. */
  lemma {:induction false} LastPieceAfterSeparator(s: string, w: string, sep: char)
    requires sep !in w
    requires s == w || EndsWith(s, [sep] + w)
    ensures Split(s, sep)[|Split(s, sep)| - 1] == w
    decreases |s|
  {
    if s == w {
      SplitWithoutSeparator(w, sep);
    } else if s == [sep] + w {
      assert s[1..] == w;
      SplitWithoutSeparator(w, sep);
    } else {
      assert s[1..][|s| - 1 - |w| - 1..] == s[|s| - |w| - 1..];
      LastPieceAfterSeparator(s[1..], w, sep);
      JoinSplit(s[1..], sep);
    }
  }

  // ---------------------------------------------------------------------
  // Positions of one character
  // ---------------------------------------------------------------------

  /** `s.find(c)`: the index of the first `c`. */
  function FirstIndexOf(s: string, c: char): (r: Option<nat>)
    ensures r.Some? ==> r.value < |s| && s[r.value] == c && c !in s[..r.value]
    ensures r.None? <==> c !in s
    decreases |s|
  {
    if s == [] then None
    else if s[0] == c then Some(0)
    else
      match FirstIndexOf(s[1..], c)
      case None => None
      case Some(i) =>
        assert s[..i + 1] == [s[0]] + s[1..][..i];
        Some(i + 1)
  }

  /** `s.rfind(c)`: the index of the last `c`. */
  function LastIndexOf(s: string, c: char): (r: Option<nat>)
    ensures r.Some? ==> r.value < |s| && s[r.value] == c && c !in s[r.value + 1..]
    ensures r.None? <==> c !in s
    decreases |s|
  {
    if s == [] then None
    else if s[|s| - 1] == c then Some(|s| - 1)
    else
      match LastIndexOf(s[..|s| - 1], c)
      case None => None
      case Some(i) =>
        assert s[i + 1..] == s[..|s| - 1][i + 1..] + [s[|s| - 1]];
        Some(i)
  }

  // ---------------------------------------------------------------------
  // Numbers as text
  // ---------------------------------------------------------------------

  function DigitChar(d: nat): char
    requires d < 10
  {
    ('0' as int + d) as char
  }

  /** `str(n)` / `f"{n}"` for a natural number. */
  function NatToString(n: nat): (r: string)
    ensures |r| >= 1
    ensures forall k :: 0 <= k < |r| ==> '0' <= r[k] <= '9'
    ensures r[0] == '0' ==> n == 0
    decreases n
  {
    if n < 10 then [DigitChar(n)] else NatToString(n / 10) + [DigitChar(n % 10)]
  }

  /** The number a run of decimal digits spells, most significant first. */
  function DigitsValue(s: string): nat
    requires forall k :: 0 <= k < |s| ==> '0' <= s[k] <= '9'
    decreases |s|
  {
    if s == [] then 0
    else DigitsValue(s[..|s| - 1]) * 10 + (s[|s| - 1] as int - '0' as int)
  }

  /** The digits of `n` spell `n`; with no leading zero (the ensures of
      `NatToString`) this makes them the decimal spelling of `n`. */
  lemma {:induction false} NatToStringValue(n: nat)
    ensures DigitsValue(NatToString(n)) == n
    decreases n
  {
    if n >= 10 {
      var front := NatToString(n / 10);
      var r := NatToString(n);
      NatToStringValue(n / 10);
      assert r == front + [DigitChar(n % 10)];
      assert r[..|r| - 1] == front;
    }
  }

  // ---------------------------------------------------------------------
  // Distinct values in first-seen order, and counting
  // ---------------------------------------------------------------------

  /** The values of `xs` without repeats, each at the place it is first seen
      (the key order of a Python dict or a JavaScript object filled from
      `xs`). */
  function Distinct<T(==)>(xs: seq<T>): (r: seq<T>)
    ensures forall i :: 0 <= i < |r| ==> r[i] in xs
    ensures forall i :: 0 <= i < |xs| ==> xs[i] in r
    ensures forall i, j :: 0 <= i < j < |r| ==> r[i] != r[j]
    decreases |xs|
  {
    if xs == [] then []
    else
      var d := Distinct(xs[..|xs| - 1]);
      if xs[|xs| - 1] in d then d else d + [xs[|xs| - 1]]
  }

  /** One more value extends the first-seen order only when it is new. */
  lemma DistinctSnoc<T>(xs: seq<T>, x: T)
    ensures Distinct(xs + [x]) == (if x in xs then Distinct(xs) else Distinct(xs) + [x])
  {
    assert (xs + [x])[..|xs|] == xs;
    var d := Distinct(xs);
    if x in xs {
      var i :| 0 <= i < |xs| && xs[i] == x;
      assert x in d;
    } else {
      assert x !in d;
    }
  }

  function Count<T(==)>(xs: seq<T>, x: T): nat
    decreases |xs|
  {
    if xs == [] then 0
    else Count(xs[..|xs| - 1], x) + (if xs[|xs| - 1] == x then 1 else 0)
  }

  /** One more value raises its own count by one and no other. */
  lemma CountSnoc<T>(xs: seq<T>, x: T, k: T)
    ensures Count(xs + [x], k) == Count(xs, k) + (if x == k then 1 else 0)
  {
    assert (xs + [x])[..|xs|] == xs;
  }

  /** A value that does not occur has count zero. */
  lemma {:induction false} CountOfAbsent<T>(xs: seq<T>, x: T)
    requires x !in xs
    ensures Count(xs, x) == 0
    decreases |xs|
  {
    if xs != [] {
      CountOfAbsent(xs[..|xs| - 1], x);
    }
  }

  /** The counts of `xs` for every value of `keys`, added up. */
  function CountTotal<T(==)>(keys: seq<T>, xs: seq<T>): nat
    decreases |keys|
  {
    if keys == [] then 0
    else CountTotal(keys[..|keys| - 1], xs) + Count(xs, keys[|keys| - 1])
  }

  lemma {:induction false} CountTotalOfNothing<T>(keys: seq<T>)
    ensures CountTotal(keys, []) == 0
    decreases |keys|
  {
    if keys != [] {
      CountTotalOfNothing(keys[..|keys| - 1]);
    }
  }

  lemma {:induction false} CountTotalSnoc<T>(keys: seq<T>, xs: seq<T>, x: T)
    requires forall i, j :: 0 <= i < j < |keys| ==> keys[i] != keys[j]
    ensures CountTotal(keys, xs + [x]) == CountTotal(keys, xs) + (if x in keys then 1 else 0)
    decreases |keys|
  {
    if keys != [] {
      var n := |keys| - 1;
      CountSnoc(xs, x, keys[n]);
      CountTotalSnoc(keys[..n], xs, x);
      assert x in keys <==> x in keys[..n] || x == keys[n];
      if x == keys[n] {
        assert x !in keys[..n] by {
          forall i | 0 <= i < n ensures keys[..n][i] != x {
            assert keys[i] != keys[n];
          }
        }
      }
    }
  }

  /** Counting every value of `xs` under distinct keys counts each element
      exactly once. */
  lemma {:induction false} CountsSumToLength<T>(keys: seq<T>, xs: seq<T>)
    requires forall i, j :: 0 <= i < j < |keys| ==> keys[i] != keys[j]
    requires forall i :: 0 <= i < |xs| ==> xs[i] in keys
    ensures CountTotal(keys, xs) == |xs|
    decreases |xs|
  {
    if xs == [] {
      CountTotalOfNothing(keys);
    } else {
      var n := |xs| - 1;
      CountsSumToLength(keys, xs[..n]);
      assert xs == xs[..n] + [xs[n]];
      CountTotalSnoc(keys, xs[..n], xs[n]);
    }
  }

  // ---------------------------------------------------------------------
  // The positions a filter keeps
  // ---------------------------------------------------------------------

  /** The positions holding `true`, in increasing order: a filter over a
      list keeps exactly the elements at these positions. */
  function TruePositions(flags: seq<bool>): (ks: seq<nat>)
    ensures forall j :: 0 <= j < |ks| ==> ks[j] < |flags| && flags[ks[j]]
    ensures forall j, j' :: 0 <= j < j' < |ks| ==> ks[j] < ks[j']
    ensures forall k :: 0 <= k < |flags| && flags[k] ==> k in ks
    decreases |flags|
  {
    if flags == [] then []
    else
      var n := |flags| - 1;
      var front := TruePositions(flags[..n]);
      assert forall k :: 0 <= k < n ==> flags[..n][k] == flags[k];
      front + (if flags[n] then [n] else [])
  }

  /** One more flag adds its own position when it is set. */
  lemma PositionsSnoc(flags: seq<bool>)
    requires flags != []
    ensures TruePositions(flags) ==
            TruePositions(flags[..|flags| - 1]) + (if flags[|flags| - 1] then [|flags| - 1] else [])
  {
  }

  /** `sel` lists the elements of `xs` at the positions `ks`, in that order. */
  ghost predicate Selects<T>(sel: seq<T>, xs: seq<T>, ks: seq<nat>) {
    |sel| == |ks| && forall j :: 0 <= j < |ks| ==> ks[j] < |xs| && sel[j] == xs[ks[j]]
  }

  /** A selection from a list is still one after the list grows, and the
      last element joins it together with its position. */
  lemma SelectSnoc<T>(sel: seq<T>, xs: seq<T>, ks: seq<nat>, x: T, keep: bool)
    requires Selects(sel, xs, ks)
    ensures Selects(sel + (if keep then [x] else []), xs + [x], ks + (if keep then [|xs|] else []))
  {
    var sel', xs', ks' := sel + (if keep then [x] else []), xs + [x], ks + (if keep then [|xs|] else []);
    forall j | 0 <= j < |ks'|
      ensures ks'[j] < |xs'| && sel'[j] == xs'[ks'[j]]
    {
      if j < |ks| {
        assert sel'[j] == sel[j] && ks'[j] == ks[j];
      }
    }
  }
}
