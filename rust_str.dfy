/**
  The few pieces of Rust's `str` that the identity validators rely on,
  stated over Dafny strings. A Dafny `char` is a Unicode scalar value, so
  a `string` here is the sequence of characters a Rust `&str` holds; the
  UTF-8 bytes behind it are accounted for by `Utf8Len` and `ByteLen`.
*/
module RustStr {

  datatype Option<T> = None | Some(value: T)

  /** Number of bytes UTF-8 spends on one character. */
  function Utf8Len(c: char): (n: nat)
    ensures 1 <= n <= 4
    ensures n == 1 <==> IsAsciiChar(c)
  {
    if c as int < 0x80 then 1
    else if c as int < 0x800 then 2
    else if c as int < 0x1_0000 then 3
    else 4
  }

  predicate IsAsciiChar(c: char) {
    c as int < 0x80
  }

  predicate IsAscii(s: string) {
    forall i :: 0 <= i < |s| ==> IsAsciiChar(s[i])
  }

  /** `str::len`: the length in bytes of the UTF-8 encoding, not in characters. */
  function ByteLen(s: string): (n: nat)
    ensures |s| <= n <= 4 * |s|
    ensures IsAscii(s) ==> n == |s|
  {
    if s == [] then 0 else Utf8Len(s[0]) + ByteLen(s[1..])
  }

  lemma AsciiConcat(a: string, b: string)
    requires IsAscii(a) && IsAscii(b)
    ensures IsAscii(a + b)
  {
  }

  lemma {:induction false} ByteLenConcat(a: string, b: string)
    ensures ByteLen(a + b) == ByteLen(a) + ByteLen(b)
  {
    if a == [] {
      assert a + b == b;
    } else {
      assert (a + b)[0] == a[0];
      assert (a + b)[1..] == a[1..] + b;
      ByteLenConcat(a[1..], b);
    }
  }

  /**
    Byte offset `b` is a character boundary of `s` (Rust's
    `str::is_char_boundary`): some prefix of whole characters is exactly
    `b` bytes long.
  */
  ghost predicate IsCharBoundary(s: string, b: nat) {
    exists k :: 0 <= k <= |s| && ByteLen(s[..k]) == b
  }

  /**
    `str::get(0..2)`: the characters making up the first two bytes, or
    `None` when byte 2 falls inside a multi-byte character or past the end.
  */
  function GetPrefix2(s: string): (r: Option<string>)
    ensures r.Some? ==> ByteLen(r.value) == 2 && r.value <= s
  {
    if |s| >= 1 && Utf8Len(s[0]) == 2 then Some(s[..1])
    else if |s| >= 2 && Utf8Len(s[0]) == 1 && Utf8Len(s[1]) == 1 then Some(s[..2])
    else None
  }

  /** A non-empty string takes at least as many bytes as its first character. */
  lemma ByteLenHead(s: string)
    requires s != []
    ensures ByteLen(s) == Utf8Len(s[0]) + ByteLen(s[1..])
    ensures ByteLen(s) >= Utf8Len(s[0])
  {
  }

  /** `GetPrefix2` succeeds exactly when byte 2 is a character boundary. */
  lemma GetPrefix2Spec(s: string)
    ensures GetPrefix2(s).Some? <==> IsCharBoundary(s, 2)
  {
    if GetPrefix2(s).Some? {
      if Utf8Len(s[0]) == 2 {
        assert s[..1][1..] == [];
        assert ByteLen(s[..1]) == 2;
      } else {
        assert s[..2][1..][1..] == [];
        assert ByteLen(s[..2]) == 2;
      }
    }
    if IsCharBoundary(s, 2) {
      var k :| 0 <= k <= |s| && ByteLen(s[..k]) == 2;
      BoundaryAt2(s, k);
    }
  }

  lemma BoundaryAt2(s: string, k: nat)
    requires k <= |s| && ByteLen(s[..k]) == 2
    ensures GetPrefix2(s).Some?
  {
    assert s[..k] != [];
    assert s[..k][0] == s[0] && s[..k][1..] == s[1..k];
    ByteLenHead(s[..k]);
    if Utf8Len(s[0]) == 1 {
      assert s[1..k] != [];
      assert s[1..k][0] == s[1];
      ByteLenHead(s[1..k]);
    }
  }

  /** The first two characters are exactly "0x". */
  predicate StartsWith0x(s: string) {
    |s| >= 2 && s[..2] == "0x"
  }

  lemma GetPrefix2Is0x(s: string)
    ensures GetPrefix2(s) == Some("0x") <==> StartsWith0x(s)
  {
    if StartsWith0x(s) {
      assert s[0] == '0' && s[1] == 'x';
    }
  }

  predicate IsAsciiUpper(c: char) {
    'A' <= c <= 'Z'
  }

  /** Rust's `to_lowercase` on ASCII letters; every other character is kept. */
  function LowerChar(c: char): (d: char)
  {
    if IsAsciiUpper(c) then (c as int + 32) as char else c
  }

  /** `to_lowercase`, character by character. */
  function Lower(s: string): (r: string)
    ensures |r| == |s|
    ensures forall i :: 0 <= i < |r| ==> !IsAsciiUpper(r[i])
  {
    seq(|s|, i requires 0 <= i < |s| => LowerChar(s[i]))
  }

  /** The same character, or the upper- and lower-case forms of one ASCII letter. */
  predicate SameLetterIgnoringAsciiCase(c: char, d: char) {
    c == d
    || (IsAsciiUpper(c) && d as int == c as int + 32)
    || (IsAsciiUpper(d) && c as int == d as int + 32)
  }

  /** The two strings are equal once ASCII letter case is ignored. */
  predicate SameUpToAsciiCase(a: string, b: string) {
    |a| == |b| && forall i :: 0 <= i < |a| ==> SameLetterIgnoringAsciiCase(a[i], b[i])
  }

  /** Strings that differ only in ASCII letter case lowercase to the same text. */
  lemma LowerEqualWhenSameUpToAsciiCase(a: string, b: string)
    requires SameUpToAsciiCase(a, b)
    ensures Lower(a) == Lower(b)
  {
    assert forall i :: 0 <= i < |a| ==> Lower(a)[i] == Lower(b)[i];
  }

  /**
    On ASCII text the converse holds too: equal lowercase forms mean the
    strings differ only in letter case.
  */
  lemma SameUpToAsciiCaseWhenLowerEqual(a: string, b: string)
    requires IsAscii(a) && IsAscii(b)
    requires Lower(a) == Lower(b)
    ensures SameUpToAsciiCase(a, b)
  {
    forall i | 0 <= i < |a| ensures SameLetterIgnoringAsciiCase(a[i], b[i]) {
      assert Lower(a)[i] == Lower(b)[i];
    }
  }

  lemma LowerIdempotent(s: string)
    ensures Lower(Lower(s)) == Lower(s)
  {
  }

  lemma {:induction false} CaseFoldKeepsByteLen(a: string, b: string)
    requires SameUpToAsciiCase(a, b)
    ensures ByteLen(a) == ByteLen(b)
  {
    if a != [] {
      assert Utf8Len(a[0]) == Utf8Len(b[0]);
      assert SameUpToAsciiCase(a[1..], b[1..]) by {
        forall i | 0 <= i < |a[1..]| ensures SameLetterIgnoringAsciiCase(a[1..][i], b[1..][i]) {
          assert a[1..][i] == a[i + 1] && b[1..][i] == b[i + 1];
        }
      }
      CaseFoldKeepsByteLen(a[1..], b[1..]);
    }
  }

  lemma LowerKeepsAscii(s: string)
    requires IsAscii(s)
    ensures IsAscii(Lower(s))
  {
  }
}
