/** Bytes, ASCII characters and the few slice and string operations of the Rust
    standard library that the sniffer and the scorer rely on. */
module Ascii {

  /** One byte of the scanned buffer (Rust `u8`). */
  type Byte = bv8

  datatype Option<+T> = None | Some(value: T)

  /** Rust `<[T]>::starts_with` / `str::starts_with`. */
  predicate StartsWith<T(==)>(s: seq<T>, prefix: seq<T>) {
    |prefix| <= |s| && s[..|prefix|] == prefix
  }

  /** `pat` occurs in `s` at position `i`. */
  predicate OccursAt<T(==)>(s: seq<T>, i: nat, pat: seq<T>) {
    i + |pat| <= |s| && s[i..i + |pat|] == pat
  }

  /** Rust `str::contains` with a string pattern. */
  predicate Contains<T(==)>(s: seq<T>, pat: seq<T>) {
    exists i: nat :: i <= |s| && OccursAt(s, i, pat)
  }

  lemma OccursAtIndex<T>(s: seq<T>, i: nat, pat: seq<T>, k: nat)
    requires OccursAt(s, i, pat) && k < |pat|
    ensures s[i + k] == pat[k]
  {
    assert s[i..i + |pat|][k] == s[i + k];
  }

  /** A pattern inside a pattern: if `inner` occurs at `j` in `outer`, every
      occurrence of `outer` carries an occurrence of `inner`. */
  lemma {:induction false} ContainsTransitive<T>(s: seq<T>, outer: seq<T>, inner: seq<T>, j: nat)
    requires OccursAt(outer, j, inner)
    requires Contains(s, outer)
    ensures Contains(s, inner)
  {
    var i: nat :| i <= |s| && OccursAt(s, i, outer);
    forall k | 0 <= k < |inner|
      ensures s[i + j + k] == inner[k]
    {
      OccursAtIndex(s, i, outer, j + k);
      OccursAtIndex(outer, j, inner, k);
    }
    assert s[i + j..i + j + |inner|] == inner;
    assert OccursAt(s, i + j, inner);
  }

  /** Rust `str::matches(pat).count()`: non-overlapping occurrences found left
      to right, starting the search at `from`. */
  function CountMatches<T(==)>(s: seq<T>, pat: seq<T>, from: nat): (n: nat)
    requires |pat| > 0 && from <= |s|
    ensures n * |pat| <= |s| - from
    decreases |s| - from
  {
    if from + |pat| > |s| then 0
    else if OccursAt(s, from, pat) then 1 + CountMatches(s, pat, from + |pat|)
    else CountMatches(s, pat, from + 1)
  }

  /** `matches().count()` is zero exactly when the pattern occurs nowhere from
      `from` on. */
  lemma {:induction false} CountMatchesZero<T>(s: seq<T>, pat: seq<T>, from: nat)
    requires |pat| > 0 && from <= |s|
    ensures CountMatches(s, pat, from) == 0 <==> !exists i: nat :: from <= i && OccursAt(s, i, pat)
    decreases |s| - from
  {
    if from + |pat| > |s| {
    } else if OccursAt(s, from, pat) {
    } else {
      CountMatchesZero(s, pat, from + 1);
      assert forall i: nat :: from <= i && OccursAt(s, i, pat) ==> from + 1 <= i;
    }
  }

  predicate IsAsciiUpper(c: char) {
    'A' <= c <= 'Z'
  }

  /** Rust `char::to_ascii_lowercase`. */
  function AsciiLower(c: char): (d: char)
    ensures !IsAsciiUpper(d)
    ensures c != d <==> IsAsciiUpper(c)
  {
    if IsAsciiUpper(c) then (c as int + 32) as char else c
  }

  /** Rust `str::to_lowercase`, restricted to what it does on ASCII text. */
  function ToLowercase(s: string): (r: string)
    ensures |r| == |s|
    ensures forall i :: 0 <= i < |r| ==> !IsAsciiUpper(r[i])
    ensures forall i :: 0 <= i < |s| && !IsAsciiUpper(s[i]) ==> r[i] == s[i]
    ensures forall i :: 0 <= i < |s| && IsAsciiUpper(s[i]) ==> r[i] as int == s[i] as int + 32
    ensures forall i :: 0 <= i < |s| ==> r[i] == AsciiLower(s[i])
  {
    seq(|s|, i requires 0 <= i < |s| => AsciiLower(s[i]))
  }

  /** Rust `str::eq_ignore_ascii_case`. */
  predicate EqIgnoreAsciiCase(a: string, b: string) {
    |a| == |b| && forall i :: 0 <= i < |a| ==> AsciiLower(a[i]) == AsciiLower(b[i])
  }

  /** Two strings are equal ignoring ASCII case exactly when their
      lower-cased forms are equal. */
  lemma EqIgnoreAsciiCaseIsLowercaseEquality(a: string, b: string)
    ensures EqIgnoreAsciiCase(a, b) <==> ToLowercase(a) == ToLowercase(b)
  {
    if ToLowercase(a) == ToLowercase(b) {
      assert |a| == |b|;
      forall i | 0 <= i < |a|
        ensures AsciiLower(a[i]) == AsciiLower(b[i])
      {
        assert ToLowercase(a)[i] == ToLowercase(b)[i];
      }
    }
  }

  /** The byte of an ASCII (Latin-1) character, as Rust's `b"…"` literals store it. */
  function ByteOf(c: char): Byte {
    if c as int < 256 then (c as int) as Byte else 0
  }

  function AsciiBytes(s: string): (r: seq<Byte>)
    ensures |r| == |s|
    ensures forall i :: 0 <= i < |s| ==> r[i] == ByteOf(s[i])
  {
    seq(|s|, i requires 0 <= i < |s| => ByteOf(s[i]))
  }

  /** Decimal rendering of a natural number, as Rust's `{}` formats integers. */
  function NatToString(n: nat): (r: string)
    ensures |r| >= 1
    ensures forall i :: 0 <= i < |r| ==> '0' <= r[i] <= '9'
  {
    if n < 10 then [('0' as int + n) as char]
    else NatToString(n / 10) + [('0' as int + n % 10) as char]
  }

  /** The value of a string of decimal digits. */
  function DecimalValue(s: string): nat
    requires forall i :: 0 <= i < |s| ==> '0' <= s[i] <= '9'
  {
    if s == [] then 0 else DecimalValue(s[..|s| - 1]) * 10 + (s[|s| - 1] as int - '0' as int)
  }

  /** The rendering reads back as the number it renders. */
  lemma {:induction false} NatToStringRoundTrip(n: nat)
    ensures DecimalValue(NatToString(n)) == n
  {
    if n >= 10 {
      NatToStringRoundTrip(n / 10);
      var t := NatToString(n);
      assert t[..|t| - 1] == NatToString(n / 10);
    }
  }

  /** Different numbers are rendered differently. */
  lemma NatToStringInjective(a: nat, b: nat)
    requires NatToString(a) == NatToString(b)
    ensures a == b
  {
    NatToStringRoundTrip(a);
    NatToStringRoundTrip(b);
  }
}
