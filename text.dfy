/**
 * The JDK string operations the core relies on, stated over Dafny strings:
 * String.indexOf, String.substring, String.format with %s, equalsIgnoreCase,
 * the "%02x" hex formatting of a byte, and the UTF-16LE and UTF-8 encoders.
 */
module Text {
  import opened Base

  // ---------------------------------------------------------------------------
  // indexOf and substring
  // ---------------------------------------------------------------------------

  /** t occurs in s starting at index i. */
  predicate OccursAt(s: string, t: string, i: int)
  {
    0 <= i && i + |t| <= |s| && s[i..i + |t|] == t
  }

  /** String.indexOf: the first index at which t occurs in s, or -1. */
  function IndexOf(s: string, t: string): (r: int)
    ensures -1 <= r <= |s|
    ensures r >= 0 ==> OccursAt(s, t, r) && forall j :: 0 <= j < r ==> !OccursAt(s, t, j)
    ensures r == -1 <==> forall j :: !OccursAt(s, t, j)
  {
    IndexFrom(s, t, 0)
  }

  function IndexFrom(s: string, t: string, from: nat): (r: int)
    requires forall j :: 0 <= j < from ==> !OccursAt(s, t, j)
    ensures -1 <= r <= |s|
    ensures r >= 0 ==> OccursAt(s, t, r) && forall j :: 0 <= j < r ==> !OccursAt(s, t, j)
    ensures r == -1 <==> forall j :: !OccursAt(s, t, j)
    decreases |s| - from
  {
    if from + |t| > |s| then
      assert forall j :: !OccursAt(s, t, j) by {
        forall j ensures !OccursAt(s, t, j) {
          if 0 <= j < from { } else if from <= j { assert j + |t| > |s|; }
        }
      }
      -1
    else if s[from..from + |t|] == t then from
    else IndexFrom(s, t, from + 1)
  }

  /** The first occurrence is unique: whichever index is first, IndexOf finds it. */
  lemma IndexOfFirst(s: string, t: string, i: int)
    requires OccursAt(s, t, i)
    requires forall j :: 0 <= j < i ==> !OccursAt(s, t, j)
    ensures IndexOf(s, t) == i
  {
    var r := IndexOf(s, t);
    assert r != -1;
  }

  /** String.substring(b, e): the characters from b up to e, or None for StringIndexOutOfBoundsException. */
  function Substring(s: string, b: int, e: int): (r: Option<string>)
    ensures r.Some? <==> 0 <= b <= e <= |s|
    ensures r.Some? ==> r.value == s[b..e]
  {
    if 0 <= b <= e <= |s| then Some(s[b..e]) else None
  }

  // ---------------------------------------------------------------------------
  // String.format with %s specifiers
  // ---------------------------------------------------------------------------

  /** No format specifier character in t. */
  predicate Literal(t: string)
  {
    forall i :: 0 <= i < |t| ==> t[i] != '%'
  }

  /**
   * String.format(t, args) for templates whose only specifier is %s: each %s takes
   * the next argument; surplus arguments are ignored, a missing argument or any
   * other use of % is an exception (None).
   */
  function Format(t: string, args: seq<string>): Option<string>
    decreases |t|
  {
    if t == [] then Some([])
    else if t[0] != '%' then
      match Format(t[1..], args)
      case Some(rest) => Some([t[0]] + rest)
      case None => None
    else if |t| >= 2 && t[1] == 's' && args != [] then
      match Format(t[2..], args[1..])
      case Some(rest) => Some(args[0] + rest)
      case None => None
    else None
  }

  /** A template without specifiers formats to itself, whatever the arguments. */
  lemma {:induction false} FormatLiteral(t: string, args: seq<string>)
    requires Literal(t)
    ensures Format(t, args) == Some(t)
    decreases |t|
  {
    if t != [] {
      assert Literal(t[1..]) by {
        forall i | 0 <= i < |t[1..]| ensures t[1..][i] != '%' { assert t[1..][i] == t[i + 1]; }
      }
      FormatLiteral(t[1..], args);
      assert [t[0]] + t[1..] == t;
    }
  }

  /** A literal piece, one %s and the rest of the template: the first argument lands after the piece. */
  lemma {:induction false} FormatSplit(p: string, q: string, a: string, rest: seq<string>)
    requires Literal(p)
    ensures Format(p + "%s" + q, [a] + rest) ==
            match Format(q, rest) case Some(r) => Some(p + a + r) case None => None
    decreases |p|
  {
    var t := p + "%s" + q;
    if p == [] {
      assert t == "%s" + q;
      assert t[0] == '%' && t[1] == 's';
      assert t[2..] == q;
      assert ([a] + rest)[1..] == rest;
      assert ([a] + rest)[0] == a;
      match Format(q, rest)
      case Some(r) => assert p + a + r == a + r;
      case None =>
    } else {
      assert Literal(p[1..]) by {
        forall i | 0 <= i < |p[1..]| ensures p[1..][i] != '%' { assert p[1..][i] == p[i + 1]; }
      }
      FormatSplit(p[1..], q, a, rest);
      assert t[0] == p[0];
      assert t[1..] == p[1..] + "%s" + q;
      match Format(q, rest)
      case Some(r) =>
        assert [p[0]] + (p[1..] + a + r) == p + a + r;
      case None =>
    }
  }

  lemma LiteralConcat(a: string, b: string)
    requires Literal(a) && Literal(b)
    ensures Literal(a + b)
  {
    forall i | 0 <= i < |a + b| ensures (a + b)[i] != '%' {
      if i >= |a| { assert (a + b)[i] == b[i - |a|]; }
    }
  }

  /** A template with one %s between two literal pieces, given one argument. */
  lemma FormatOne(p: string, q: string, a: string)
    requires Literal(p) && Literal(q)
    ensures Format(p + "%s" + q, [a]) == Some(p + a + q)
  {
    assert [a] + [] == [a];
    FormatSplit(p, q, a, []);
    FormatLiteral(q, []);
  }

  /** A template with two %s between three literal pieces, given two arguments. */
  lemma FormatTwo(p: string, q: string, r: string, a: string, b: string)
    requires Literal(p) && Literal(q) && Literal(r)
    ensures Format(p + "%s" + (q + "%s" + r), [a, b]) == Some(p + a + (q + b + r))
  {
    assert [a] + [b] == [a, b];
    FormatSplit(p, q + "%s" + r, a, [b]);
    FormatOne(q, r, b);
  }

  // ---------------------------------------------------------------------------
  // equalsIgnoreCase (ASCII letters)
  // ---------------------------------------------------------------------------

  function ToLowerAscii(c: char): (r: char)
    ensures 'A' <= c <= 'Z' ==> r as int == c as int + 32
    ensures !('A' <= c <= 'Z') ==> r == c
  {
    if 'A' <= c <= 'Z' then (c as int + 32) as char else c
  }

  function ToUpperAscii(c: char): (r: char)
    ensures 'a' <= c <= 'z' ==> r as int == c as int - 32
    ensures !('a' <= c <= 'z') ==> r == c
  {
    if 'a' <= c <= 'z' then (c as int - 32) as char else c
  }

  /** Character comparison of String.equalsIgnoreCase: equal, or equal after upper-casing, or after lower-casing. */
  predicate CharEqualsIgnoreCase(a: char, b: char)
  {
    a == b || ToUpperAscii(a) == ToUpperAscii(b) || ToLowerAscii(a) == ToLowerAscii(b)
  }

  /** String.equalsIgnoreCase: same length and pairwise equal characters ignoring case. */
  predicate EqualsIgnoreCase(a: string, b: string)
  {
    |a| == |b| && forall i :: 0 <= i < |a| ==> CharEqualsIgnoreCase(a[i], b[i])
  }

  /** The string with every ASCII capital replaced by its small letter. */
  function LowerAscii(s: string): (r: string)
    ensures |r| == |s|
    ensures forall i :: 0 <= i < |s| ==> r[i] == ToLowerAscii(s[i])
  {
    seq(|s|, i requires 0 <= i < |s| => ToLowerAscii(s[i]))
  }

  /** Ignoring case is comparing the lower-cased strings. */
  lemma EqualsIgnoreCaseIsLowerEquality(a: string, b: string)
    ensures EqualsIgnoreCase(a, b) <==> LowerAscii(a) == LowerAscii(b)
  {
    if EqualsIgnoreCase(a, b) {
      forall i | 0 <= i < |a| ensures LowerAscii(a)[i] == LowerAscii(b)[i] {
        CharIgnoreCaseIsLower(a[i], b[i]);
      }
    }
    if LowerAscii(a) == LowerAscii(b) {
      forall i | 0 <= i < |a| ensures CharEqualsIgnoreCase(a[i], b[i]) {
        assert LowerAscii(a)[i] == LowerAscii(b)[i];
      }
    }
  }

  lemma CharIgnoreCaseIsLower(a: char, b: char)
    ensures CharEqualsIgnoreCase(a, b) <==> ToLowerAscii(a) == ToLowerAscii(b)
  {
  }

  // ---------------------------------------------------------------------------
  // Hex formatting: String.format("%02x", b) for each digest byte
  // ---------------------------------------------------------------------------

  const HexDigits: string := "0123456789abcdef"

  /** "%02x" of one byte: high nibble digit, low nibble digit, lower case. */
  function HexByte(b: Byte): (r: string)
    ensures |r| == 2
  {
    [HexDigits[b / 16], HexDigits[b % 16]]
  }

  /** Concatenation of "%02x" over the bytes, in order. */
  function Hex(bytes: seq<Byte>): (r: string)
    ensures |r| == 2 * |bytes|
    decreases |bytes|
  {
    if bytes == [] then [] else Hex(bytes[..|bytes| - 1]) + HexByte(bytes[|bytes| - 1])
  }

  /** Byte i of the input is spelled by characters 2i and 2i+1 of the hex text, high nibble first. */
  lemma {:induction false} HexAt(bytes: seq<Byte>, i: nat)
    requires i < |bytes|
    ensures Hex(bytes)[2 * i] == HexDigits[bytes[i] / 16]
    ensures Hex(bytes)[2 * i + 1] == HexDigits[bytes[i] % 16]
    decreases |bytes|
  {
    var n := |bytes| - 1;
    if i < n {
      HexAt(bytes[..n], i);
      assert bytes[..n][i] == bytes[i];
    }
  }

  /** Value of a lower-case hex digit. */
  function HexValue(c: char): Option<nat>
  {
    if '0' <= c <= '9' then Some(c as int - '0' as int)
    else if 'a' <= c <= 'f' then Some(c as int - 'a' as int + 10)
    else None
  }

  /** Reads back a string of lower-case hex digit pairs; None if it is not one. */
  function ParseHex(s: string): (r: Option<seq<Byte>>)
    ensures r.Some? ==> 2 * |r.value| == |s|
    decreases |s|
  {
    if s == [] then Some([])
    else if |s| < 2 then None
    else
      var n := |s| - 2;
      match (ParseHex(s[..n]), HexValue(s[n]), HexValue(s[n + 1]))
      case (Some(init), Some(hi), Some(lo)) => if hi < 16 && lo < 16 then Some(init + [hi * 16 + lo]) else None
      case _ => None
  }

  lemma HexDigitValue(v: nat)
    requires v < 16
    ensures HexValue(HexDigits[v]) == Some(v)
  {
  }

  /** Appending the "%02x" of one byte appends that byte to what is read back. */
  lemma ParseHexAppend(s: string, b: Byte)
    ensures ParseHex(s + HexByte(b)) == match ParseHex(s) case Some(v) => Some(v + [b]) case None => None
  {
    var t := s + HexByte(b);
    var n := |t| - 2;
    assert t[..n] == s;
    HexDigitValue(b / 16);
    HexDigitValue(b % 16);
    assert HexValue(t[n]) == Some(b / 16);
    assert HexValue(t[n + 1]) == Some(b % 16);
    assert (b / 16) * 16 + b % 16 == b;
  }

  /** The hex text holds exactly the digest: parsing it gives the bytes back. */
  lemma {:induction false} HexRoundTrip(bytes: seq<Byte>)
    ensures ParseHex(Hex(bytes)) == Some(bytes)
    decreases |bytes|
  {
    if bytes != [] {
      var n := |bytes| - 1;
      var init, last := bytes[..n], bytes[n];
      assert init + [last] == bytes;
      HexRoundTrip(init);
      ParseHexAppend(Hex(init), last);
      assert Hex(bytes) == Hex(init) + HexByte(last);
    }
  }

  /** Every character of the hex text is a lower-case hex digit. */
  lemma HexIsLowerCase(bytes: seq<Byte>)
    ensures forall i :: 0 <= i < |Hex(bytes)| ==> Hex(bytes)[i] in HexDigits
  {
    var h := Hex(bytes);
    forall i | 0 <= i < |h| ensures h[i] in HexDigits {
      var k := i / 2;
      HexAt(bytes, k);
      if i % 2 == 0 {
        assert i == 2 * k;
      } else {
        assert i == 2 * k + 1;
      }
    }
  }

  // ---------------------------------------------------------------------------
  // Encodings: String.getBytes(UTF_16LE) and String.getBytes(UTF_8)
  // ---------------------------------------------------------------------------

  predicate IsAscii(s: string)
  {
    forall i :: 0 <= i < |s| ==> s[i] as int < 0x80
  }

  /** UTF-16LE code units of one character, low byte first; outside the BMP a surrogate pair. */
  function Utf16LeChar(c: char): (r: seq<Byte>)
    ensures |r| == 2 || |r| == 4
  {
    var v := c as int;
    if v < 0x1_0000 then [v % 256, v / 256]
    else
      var u := v - 0x1_0000;
      var hi := 0xD800 + u / 0x400;
      var lo := 0xDC00 + u % 0x400;
      [hi % 256, hi / 256, lo % 256, lo / 256]
  }

  /** String.getBytes(StandardCharsets.UTF_16LE). */
  function Utf16Le(s: string): seq<Byte>
    decreases |s|
  {
    if s == [] then [] else Utf16Le(s[..|s| - 1]) + Utf16LeChar(s[|s| - 1])
  }

  /** UTF-8 bytes of one character. */
  function Utf8Char(c: char): (r: seq<Byte>)
    ensures 1 <= |r| <= 4
  {
    var v := c as int;
    if v < 0x80 then [v]
    else if v < 0x800 then [0xC0 + v / 64, 0x80 + v % 64]
    else if v < 0x1_0000 then [0xE0 + v / 4096, 0x80 + (v / 64) % 64, 0x80 + v % 64]
    else [0xF0 + v / 0x4_0000, 0x80 + (v / 4096) % 64, 0x80 + (v / 64) % 64, 0x80 + v % 64]
  }

  /** String.getBytes(StandardCharsets.UTF_8). */
  function Utf8(s: string): seq<Byte>
    decreases |s|
  {
    if s == [] then [] else Utf8(s[..|s| - 1]) + Utf8Char(s[|s| - 1])
  }

  /** Each byte read as the character with that code. */
  function BytesAsChars(b: seq<Byte>): (r: string)
    ensures |r| == |b|
    ensures forall i :: 0 <= i < |b| ==> r[i] as int == b[i]
  {
    seq(|b|, i requires 0 <= i < |b| => b[i] as char)
  }

  /** Each character of s followed by a zero byte. */
  function Doubled(s: string): (r: seq<Byte>)
    requires IsAscii(s)
    ensures |r| == 2 * |s|
  {
    seq(2 * |s|, i requires 0 <= i < 2 * |s| => if i % 2 == 0 then s[i / 2] as int else 0)
  }

  /** For ASCII text, UTF-16LE is each character followed by 0x00. */
  lemma {:induction false} Utf16LeAscii(s: string)
    requires IsAscii(s)
    ensures Utf16Le(s) == Doubled(s)
    decreases |s|
  {
    if s != [] {
      var n := |s| - 1;
      assert IsAscii(s[..n]) by {
        forall i | 0 <= i < n ensures s[..n][i] as int < 0x80 { assert s[..n][i] == s[i]; }
      }
      Utf16LeAscii(s[..n]);
      var d := Doubled(s);
      var d0 := Doubled(s[..n]);
      assert Utf16LeChar(s[n]) == [s[n] as int, 0];
      forall i | 0 <= i < 2 * |s| ensures (d0 + [s[n] as int, 0])[i] == d[i] {
        if i < 2 * n {
          assert d0[i] == if i % 2 == 0 then s[..n][i / 2] as int else 0;
          assert s[..n][i / 2] == s[i / 2];
        }
      }
    }
  }

  /** For bytes below 0x80, UTF-8 of the characters with those codes is the bytes themselves. */
  lemma {:induction false} Utf8OfAsciiBytes(b: seq<Byte>)
    requires forall i :: 0 <= i < |b| ==> b[i] < 0x80
    ensures Utf8(BytesAsChars(b)) == b
    decreases |b|
  {
    if b != [] {
      var n := |b| - 1;
      var s := BytesAsChars(b);
      assert s[..n] == BytesAsChars(b[..n]);
      Utf8OfAsciiBytes(b[..n]);
      assert Utf8Char(s[n]) == [b[n]];
      assert b[..n] + [b[n]] == b;
    }
  }
}
