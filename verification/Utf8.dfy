/**
 * How JSON encoding reads a text of bytes: as UTF-8 characters, every byte that belongs to none
 * being written as the same replacement.
 */
module Utf8 {
  import opened Common

  /** Stands for the replacement; it is no byte. */
  const BAD := '\U{FFFD}'

  /** A byte that continues a character, the first of them within narrower limits for some leading bytes. */
  predicate Follows(s: string, i: nat, lo: int, hi: int) { i < |s| && lo <= s[i] as int <= hi }

  /** Length in bytes of the UTF-8 character at the start of s; 0 when there is none. */
  function CharLen(s: string): (n: nat)
    requires s != ""
    ensures n <= |s|
  {
    var b := s[0] as int;
    if b < 0x80 then 1
    else if 0xC2 <= b <= 0xDF && Follows(s, 1, 0x80, 0xBF) then 2
    else if 0xE0 <= b <= 0xEF && Follows(s, 1, if b == 0xE0 then 0xA0 else 0x80, if b == 0xED then 0x9F else 0xBF)
            && Follows(s, 2, 0x80, 0xBF) then 3
    else if 0xF0 <= b <= 0xF4 && Follows(s, 1, if b == 0xF0 then 0x90 else 0x80, if b == 0xF4 then 0x8F else 0xBF)
            && Follows(s, 2, 0x80, 0xBF) && Follows(s, 3, 0x80, 0xBF) then 4
    else 0
  }

  /** JSON keeps characters apart, but writes the same replacement for every byte that belongs to none. */
  function Blank(s: string): (t: string)
    ensures |t| == |s|
  {
    if s == "" then ""
    else if CharLen(s) == 0 then [BAD] + Blank(s[1..])
    else s[..CharLen(s)] + Blank(s[CharLen(s)..])
  }

  /** What follows a text does not change how it is read, unless it continues its last character. */
  lemma CharLenPrefix(s: string, e: string)
    requires s != "" && e != "" && !(0x80 <= e[0] as int <= 0xBF)
    ensures CharLen(s + e) == CharLen(s)
  {
    var u := s + e;
    assert forall i | 0 <= i < |s| :: u[i] == s[i];
    assert u[|s|] == e[0];
  }

  lemma {:induction false} BlankAppend(s: string, e: string)
    requires e != "" && !(0x80 <= e[0] as int <= 0xBF)
    ensures Blank(s + e) == Blank(s) + Blank(e)
  {
    if s == "" {
      assert s + e == e;
    } else {
      CharLenPrefix(s, e);
      var n := if CharLen(s) == 0 then 1 else CharLen(s);
      assert (s + e)[n..] == s[n..] + e && (s + e)[..n] == s[..n];
      BlankAppend(s[n..], e);
    }
  }

  lemma {:induction false} BlankPlain(s: string, t: string)
    requires forall i | 0 <= i < |s| :: s[i] as int < 0x80
    ensures Blank(s + t) == s + Blank(t)
  {
    if s == "" {
      assert s + t == t;
    } else {
      assert (s + t)[..1] == s[..1] && (s + t)[1..] == s[1..] + t && s == s[..1] + s[1..];
      BlankPlain(s[1..], t);
    }
  }

  // ---------- what a character is ----------

  /** A Unicode scalar value. */
  predicate Scalar(n: int) { 0 <= n < 0xD800 || 0xE000 <= n <= 0x10FFFF }

  /** Its UTF-8 encoding, byte by byte (RFC 3629, section 3). */
  function Encode(n: int): (s: seq<int>)
    requires Scalar(n)
  {
    if n < 0x80 then [n]
    else if n < 0x800 then [0xC0 + n / 64, 0x80 + n % 64]
    else if n < 0x1_0000 then [0xE0 + n / 4096, 0x80 + n / 64 % 64, 0x80 + n % 64]
    else [0xF0 + n / 262144, 0x80 + n / 4096 % 64, 0x80 + n / 64 % 64, 0x80 + n % 64]
  }

  function Codes(s: string): (c: seq<int>)
    ensures |c| == |s| && forall i | 0 <= i < |s| :: c[i] == s[i] as int
  {
    seq(|s|, i requires 0 <= i < |s| => s[i] as int)
  }

  /** The text starts with this character. */
  ghost predicate StartsWith(s: string, n: int) { Scalar(n) && Encode(n) <= Codes(s) }

  /** What the bytes of an encoding look like. */
  lemma EncodingShape(n: int)
    requires Scalar(n)
    ensures var e := Encode(n);
            && (|e| == 1 ==> 0 <= e[0] < 0x80)
            && (|e| >= 2 ==> forall i | 1 <= i < |e| :: 0x80 <= e[i] <= 0xBF)
            && (|e| == 2 ==> 0xC2 <= e[0] <= 0xDF)
            && (|e| == 3 ==> 0xE0 <= e[0] <= 0xEF && (e[0] == 0xE0 ==> e[1] >= 0xA0) && (e[0] == 0xED ==> e[1] <= 0x9F))
            && (|e| == 4 ==> 0xF0 <= e[0] <= 0xF4 && (e[0] == 0xF0 ==> e[1] >= 0x90) && (e[0] == 0xF4 ==> e[1] <= 0x8F))
            && 1 <= |e| <= 4
  {
  }

  lemma EncodedIsRead(s: string, n: int)
    requires StartsWith(s, n)
    ensures s != "" && CharLen(s) == |Encode(n)|
  {
    EncodingShape(n);
    var e := Encode(n);
    assert |e| <= |s| && forall i | 0 <= i < |e| :: s[i] as int == e[i];
  }

  lemma TwoBytes(a: int, b: int) returns (n: int)
    requires 0xC2 <= a <= 0xDF && 0x80 <= b <= 0xBF
    ensures Scalar(n) && Encode(n) == [a, b]
  {
    n := (a - 0xC0) * 64 + (b - 0x80);
  }

  lemma ThreeBytes(a: int, b: int, c: int) returns (n: int)
    requires 0xE0 <= a <= 0xEF && 0x80 <= b <= 0xBF && 0x80 <= c <= 0xBF
    requires (a == 0xE0 ==> b >= 0xA0) && (a == 0xED ==> b <= 0x9F)
    ensures Scalar(n) && Encode(n) == [a, b, c]
  {
    var high := (a - 0xE0) * 64 + (b - 0x80);
    n := high * 64 + (c - 0x80);
    assert n / 64 == high && n % 64 == c - 0x80;
    assert n / 4096 == high / 64 == a - 0xE0 && high % 64 == b - 0x80;
  }

  lemma FourBytes(a: int, b: int, c: int, d: int) returns (n: int)
    requires 0xF0 <= a <= 0xF4 && 0x80 <= b <= 0xBF && 0x80 <= c <= 0xBF && 0x80 <= d <= 0xBF
    requires (a == 0xF0 ==> b >= 0x90) && (a == 0xF4 ==> b <= 0x8F)
    ensures Scalar(n) && Encode(n) == [a, b, c, d]
  {
    var top := (a - 0xF0) * 64 + (b - 0x80);
    var high := top * 64 + (c - 0x80);
    n := high * 64 + (d - 0x80);
    assert n / 64 == high && n % 64 == d - 0x80;
    assert n / 4096 == high / 64 == top && high % 64 == c - 0x80;
    assert n / 262144 == top / 64 == a - 0xF0 && top % 64 == b - 0x80;
  }

  lemma ReadIsEncoded(s: string) returns (n: int)
    requires s != "" && CharLen(s) > 0
    ensures StartsWith(s, n) && |Encode(n)| == CharLen(s)
  {
    var k, c := CharLen(s), Codes(s);
    if k == 1 {
      n := c[0];
    } else if k == 2 {
      n := TwoBytes(c[0], c[1]);
    } else if k == 3 {
      n := ThreeBytes(c[0], c[1], c[2]);
    } else {
      n := FourBytes(c[0], c[1], c[2], c[3]);
    }
  }

  /** The length read is that of the one character encoded there, and zero exactly when there is none. */
  lemma CharLenExactly(s: string)
    requires s != ""
    ensures CharLen(s) == 0 <==> forall n :: !StartsWith(s, n)
    ensures forall n | StartsWith(s, n) :: CharLen(s) == |Encode(n)|
  {
    forall n | StartsWith(s, n)
      ensures CharLen(s) == |Encode(n)| > 0
    {
      EncodedIsRead(s, n);
    }
    if CharLen(s) > 0 { var n := ReadIsEncoded(s); }
  }

  /** The characters of a text, and None for every byte that belongs to none. */
  function Chars(s: string): seq<Option<string>> {
    if s == "" then []
    else if CharLen(s) == 0 then [None] + Chars(s[1..])
    else [Some(s[..CharLen(s)])] + Chars(s[CharLen(s)..])
  }

  /** The text is a sequence of bytes. */
  ghost predicate Bytes(s: string) { forall i | 0 <= i < |s| :: s[i] as int < 256 }

  lemma BlankHead(a: string, b: string)
    requires a != "" && b != "" && Bytes(a) && Bytes(b) && Blank(a) == Blank(b)
    ensures CharLen(a) == CharLen(b) && a[..CharLen(a)] == b[..CharLen(b)]
  {
    var x := Blank(a);
    assert CharLen(a) == 0 <==> x[0] == BAD;
    assert CharLen(b) == 0 <==> x[0] == BAD;
    if CharLen(a) > 0 {
      assert a[..CharLen(a)] == x[..CharLen(a)] && b[..CharLen(b)] == x[..CharLen(b)];
      assert a[0] == x[0] == b[0];
    }
  }

  /** What JSON makes of two texts is the same exactly when their characters are, stray bytes being all alike. */
  lemma {:induction false} BlankExactly(a: string, b: string)
    requires Bytes(a) && Bytes(b)
    ensures Blank(a) == Blank(b) <==> Chars(a) == Chars(b)
  {
    if a != "" && b != "" {
      var m, n := if CharLen(a) == 0 then 1 else CharLen(a), if CharLen(b) == 0 then 1 else CharLen(b);
      BlankExactly(a[m..], b[n..]);
      if Blank(a) == Blank(b) {
        BlankHead(a, b);
        assert Blank(a[m..]) == Blank(a)[m..] && Blank(b[n..]) == Blank(b)[n..];
      }
      if Chars(a) == Chars(b) {
        assert Chars(a)[0] == Chars(b)[0] && Chars(a[m..]) == Chars(a)[1..] && Chars(b[n..]) == Chars(b)[1..];
      }
    }
  }

  /** A text made of whole characters. */
  predicate WellFormed(s: string) { Blank(s) == s }
}
