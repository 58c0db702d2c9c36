/**
 * The six-character geohash of internal/eta/segments.go, for arbitrary real coordinates.
 *
 * A point's cell is given by two indices below 2^15; the text is a bijective code of them.
 */
module Geohash {
  import opened Common

  const LNG_LO := -180.0
  const LNG_SPAN := 360.0
  const LAT_LO := -90.0
  const LAT_SPAN := 180.0

  // ---------- cells ----------

  /** Width of a cell after n halvings. */
  function Width(span: real, n: nat): real {
    if n == 0 then span else Width(span, n - 1) / 2.0
  }

  /** Lower edge of cell i. */
  function Edge(lo: real, w: real, i: nat): real { lo + Times(i, w) }

  /** v lies in cell i of level n; the outermost cells also take what lies outside the range. */
  predicate InCell(v: real, lo: real, span: real, n: nat, i: nat) {
    && i < Pow2(n)
    && (i == 0 || Edge(lo, Width(span, n), i) <= v)
    && (i == Pow2(n) - 1 || v < Edge(lo, Width(span, n), i + 1))
  }

  /** The cell index found by n halvings. */
  function Ix(v: real, lo: real, span: real, n: nat): nat {
    if n == 0 then 0
    else
      var i := Ix(v, lo, span, n - 1);
      if v >= Edge(lo, Width(span, n), 2 * i + 1) then 2 * i + 1 else 2 * i
  }

  lemma {:induction false} TimesHalve(i: nat, w: real)
    ensures Times(2 * i, w / 2.0) == Times(i, w)
  {
    if i > 0 {
      TimesHalve(i - 1, w);
      assert Times(2 * i, w / 2.0) == Times(2 * i - 1, w / 2.0) + w / 2.0;
      assert Times(2 * i - 1, w / 2.0) == Times(2 * (i - 1), w / 2.0) + w / 2.0;
    }
  }

  lemma EdgeHalves(lo: real, w: real, i: nat)
    ensures Edge(lo, w, i) == Edge(lo, w / 2.0, 2 * i)
    ensures Edge(lo, w, i + 1) == Edge(lo, w, i) + w
    ensures Edge(lo, w / 2.0, 2 * i + 1) == Edge(lo, w, i) + w / 2.0
  {
    TimesHalve(i, w);
  }

  lemma {:induction false} EdgeMonotone(lo: real, w: real, i: nat, j: nat)
    requires i <= j && w > 0.0
    ensures Edge(lo, w, i) <= Edge(lo, w, j)
    decreases j - i
  {
    if i < j { EdgeMonotone(lo, w, i, j - 1); }
  }

  lemma {:induction false} WidthPositive(span: real, n: nat)
    requires span > 0.0
    ensures Width(span, n) > 0.0
  {
    if n > 0 { WidthPositive(span, n - 1); }
  }

  lemma {:induction false} IxInCell(v: real, lo: real, span: real, n: nat)
    requires span > 0.0
    ensures InCell(v, lo, span, n, Ix(v, lo, span, n))
  {
    if n > 0 {
      IxInCell(v, lo, span, n - 1);
      WidthPositive(span, n - 1);
      var i, w := Ix(v, lo, span, n - 1), Width(span, n - 1);
      EdgeHalves(lo, w, i);
      EdgeHalves(lo, w, i + 1);
    }
  }

  lemma CellUnique(v: real, lo: real, span: real, n: nat, i: nat, j: nat)
    requires span > 0.0 && InCell(v, lo, span, n, i) && InCell(v, lo, span, n, j)
    ensures i == j
  {
    WidthPositive(span, n);
    if i < j { EdgeMonotone(lo, Width(span, n), i + 1, j); }
    if j < i { EdgeMonotone(lo, Width(span, n), j + 1, i); }
  }

  // ---------- the code of a cell ----------

  /** Bits of x and y alternate, x first. */
  function Interleave(x: nat, y: nat, k: nat): nat {
    if k == 0 then 0
    else if k % 2 == 1 then 2 * Interleave(x / 2, y, k - 1) + x % 2
    else 2 * Interleave(x, y / 2, k - 1) + y % 2
  }

  function Deinterleave(c: nat, k: nat): (nat, nat) {
    if k == 0 then (0, 0)
    else
      var (x, y) := Deinterleave(c / 2, k - 1);
      if k % 2 == 1 then (2 * x + c % 2, y) else (x, 2 * y + c % 2)
  }

  /** One more bit goes in last and comes out first. */
  lemma BitInverse(x: nat, y: nat, k: nat, c: nat)
    requires k > 0 && Deinterleave(c, k - 1) == (if k % 2 == 1 then (x / 2, y) else (x, y / 2)) && c < Pow2(k - 1)
    ensures var bit := if k % 2 == 1 then x % 2 else y % 2;
            Deinterleave(2 * c + bit, k) == (x, y) && 2 * c + bit < Pow2(k)
  {
    var bit := if k % 2 == 1 then x % 2 else y % 2;
    assert (2 * c + bit) / 2 == c && (2 * c + bit) % 2 == bit;
  }

  lemma {:induction false} InterleaveInverse(x: nat, y: nat, k: nat)
    requires x < Pow2((k + 1) / 2) && y < Pow2(k / 2)
    ensures Deinterleave(Interleave(x, y, k), k) == (x, y) && Interleave(x, y, k) < Pow2(k)
  {
    if k > 0 {
      if k % 2 == 1 {
        assert (k + 1) / 2 == k / 2 + 1 && (k - 1) / 2 == k / 2;
        InterleaveInverse(x / 2, y, k - 1);
        BitInverse(x, y, k, Interleave(x / 2, y, k - 1));
      } else {
        assert (k + 1) / 2 == k / 2 && (k - 1) / 2 == k / 2 - 1;
        InterleaveInverse(x, y / 2, k - 1);
        BitInverse(x, y, k, Interleave(x, y / 2, k - 1));
      }
    }
  }

  const BASE32 := "0123456789bcdefghjkmnpqrstuvwxyz"

  function Char32(n: nat): char
    requires n < 32
  {
    if n < 10 then '0' + n as char
    else if n < 17 then 'b' + (n - 10) as char
    else if n < 19 then 'j' + (n - 17) as char
    else if n < 21 then 'm' + (n - 19) as char
    else 'p' + (n - 21) as char
  }

  function Digit32(c: char): Option<nat> {
    if '0' <= c <= '9' then Some((c - '0') as nat)
    else if 'b' <= c <= 'h' then Some((c - 'b') as nat + 10)
    else if 'j' <= c <= 'k' then Some((c - 'j') as nat + 17)
    else if 'm' <= c <= 'n' then Some((c - 'm') as nat + 19)
    else if 'p' <= c <= 'z' then Some((c - 'p') as nat + 21)
    else None
  }

  lemma Base32Char(n: nat)
    requires n < 32
    ensures BASE32[n] == Char32(n) && Digit32(Char32(n)) == Some(n)
  {
  }

  /** n base-32 digits, most significant first. */
  function Text(c: nat, n: nat): (s: string)
    ensures |s| == n
  {
    if n == 0 then "" else Text(c / 32, n - 1) + [Char32(c % 32)]
  }

  function FromText(s: string): Option<nat> {
    if s == "" then Some(0)
    else
      var high, low := FromText(s[..|s| - 1]), Digit32(s[|s| - 1]);
      if high.None? || low.None? then None else Some(32 * high.value + low.value)
  }

  function Pow32(n: nat): nat { if n == 0 then 1 else 32 * Pow32(n - 1) }

  lemma {:induction false} TextInverse(c: nat, n: nat)
    requires c < Pow32(n)
    ensures FromText(Text(c, n)) == Some(c)
  {
    if n > 0 {
      TextInverse(c / 32, n - 1);
      Base32Char(c % 32);
      assert Text(c, n)[..n - 1] == Text(c / 32, n - 1);
    }
  }

  /** Bit k of the code: the axes take turns, longitude first. */
  function BitAt(lat: real, lng: real, k: nat): nat {
    if k % 2 == 0 then Ix(lng, LNG_LO, LNG_SPAN, k / 2 + 1) % 2 else Ix(lat, LAT_LO, LAT_SPAN, k / 2 + 1) % 2
  }

  /** The first k bits. */
  function CodeAt(lat: real, lng: real, k: nat): nat {
    if k == 0 then 0 else 2 * CodeAt(lat, lng, k - 1) + BitAt(lat, lng, k - 1)
  }

  /** One more bit: of x at odd length, of y at even length. */
  lemma {:induction false} InterleaveBit(x: nat, y: nat, k: nat, before: nat, bit: nat)
    requires k > 0
    requires if k % 2 == 1 then before == Interleave(x / 2, y, k - 1) && bit == x % 2
             else before == Interleave(x, y / 2, k - 1) && bit == y % 2
    ensures Interleave(x, y, k) == 2 * before + bit
  {
  }

  /** The bits are those of the two cell indices, interleaved. */
  lemma {:induction false} CodeInterleaves(lat: real, lng: real, k: nat)
    ensures CodeAt(lat, lng, k) ==
            Interleave(Ix(lng, LNG_LO, LNG_SPAN, (k + 1) / 2), Ix(lat, LAT_LO, LAT_SPAN, k / 2), k)
  {
    if k > 0 {
      CodeInterleaves(lat, lng, k - 1);
      Halves(k - 1);
      if k % 2 == 1 {
        LongitudeBit(lat, lng, k, k / 2);
      } else {
        LatitudeBit(lat, lng, k, k / 2);
      }
    }
  }

  lemma LongitudeBit(lat: real, lng: real, k: nat, m: nat)
    requires k == 2 * m + 1
    requires CodeAt(lat, lng, k - 1) == Interleave(Ix(lng, LNG_LO, LNG_SPAN, m), Ix(lat, LAT_LO, LAT_SPAN, m), k - 1)
    ensures CodeAt(lat, lng, k) == Interleave(Ix(lng, LNG_LO, LNG_SPAN, m + 1), Ix(lat, LAT_LO, LAT_SPAN, m), k)
  {
    var x, y := Ix(lng, LNG_LO, LNG_SPAN, m + 1), Ix(lat, LAT_LO, LAT_SPAN, m);
    IxHalves(lng, LNG_LO, LNG_SPAN, m + 1);
    assert BitAt(lat, lng, k - 1) == x % 2;
    InterleaveBit(x, y, k, CodeAt(lat, lng, k - 1), BitAt(lat, lng, k - 1));
  }

  lemma LatitudeBit(lat: real, lng: real, k: nat, m: nat)
    requires k == 2 * m && m >= 1
    requires CodeAt(lat, lng, k - 1) == Interleave(Ix(lng, LNG_LO, LNG_SPAN, m), Ix(lat, LAT_LO, LAT_SPAN, m - 1), k - 1)
    ensures CodeAt(lat, lng, k) == Interleave(Ix(lng, LNG_LO, LNG_SPAN, m), Ix(lat, LAT_LO, LAT_SPAN, m), k)
  {
    var x, y := Ix(lng, LNG_LO, LNG_SPAN, m), Ix(lat, LAT_LO, LAT_SPAN, m);
    IxHalves(lat, LAT_LO, LAT_SPAN, m);
    assert BitAt(lat, lng, k - 1) == y % 2;
    InterleaveBit(x, y, k, CodeAt(lat, lng, k - 1), BitAt(lat, lng, k - 1));
  }

  lemma IxHalves(v: real, lo: real, span: real, n: nat)
    ensures n > 0 ==> Ix(v, lo, span, n) / 2 == Ix(v, lo, span, n - 1)
  {
  }

  /** n characters of five bits each. */
  function CodeText(lat: real, lng: real, n: nat): string { Text(CodeAt(lat, lng, 5 * n), n) }

  function GeohashOf(lat: real, lng: real): string { CodeText(lat, lng, 6) }

  // ---------- the encoder ----------

  lemma {:induction false} IxBound(v: real, lo: real, span: real, n: nat)
    ensures Ix(v, lo, span, n) < Pow2(n)
  {
    if n > 0 { IxBound(v, lo, span, n - 1); }
  }

  /** Where the interval of one axis stands after n halvings. */
  ghost predicate Narrowed(v: real, lo: real, span: real, n: nat, min: real, max: real) {
    IsInterval(lo, Width(span, n), Ix(v, lo, span, n), min, max)
  }

  ghost predicate IsInterval(lo: real, w: real, i: nat, min: real, max: real) {
    min == Edge(lo, w, i) && max == min + w
  }

  lemma NarrowStep(v: real, lo: real, span: real, n: nat, min: real, max: real, mid: real)
    requires Narrowed(v, lo, span, n, min, max) && mid == (min + max) / 2.0
    ensures Ix(v, lo, span, n + 1) % 2 == if v >= mid then 1 else 0
    ensures v >= mid ==> Narrowed(v, lo, span, n + 1, mid, max)
    ensures v < mid ==> Narrowed(v, lo, span, n + 1, min, mid)
  {
    EdgeHalves(lo, Width(span, n), Ix(v, lo, span, n));
  }

  /** Halves the interval of one axis and reports the half taken. */
  method Bisect(v: real, min: real, max: real, ghost lo: real, ghost span: real, ghost n: nat)
    returns (bit: nat, min': real, max': real)
    requires Narrowed(v, lo, span, n, min, max)
    ensures bit <= 1 && Ix(v, lo, span, n + 1) % 2 == bit
    ensures Narrowed(v, lo, span, n + 1, min', max')
  {
    var mid := (min + max) / 2.0;
    NarrowStep(v, lo, span, n, min, max, mid);
    if v >= mid {
      bit, min', max' := 1, mid, max;
    } else {
      bit, min', max' := 0, min, mid;
    }
  }

  lemma SpelledWhole(prefix: nat, code: nat, hash: string, ch: nat)
    requires Spelled(prefix, code, hash, ch, 0)
    ensures hash == Text(code, |hash|)
  {
  }

  /** Both axes after k bits. */
  ghost predicate BoxAt(lat: real, lng: real, k: nat, lngMin: real, lngMax: real, latMin: real, latMax: real) {
    Box(lat, lng, (k + 1) / 2, k / 2, lngMin, lngMax, latMin, latMax)
  }

  ghost predicate Box(lat: real, lng: real, m: nat, n: nat, lngMin: real, lngMax: real, latMin: real, latMax: real) {
    Narrowed(lng, LNG_LO, LNG_SPAN, m, lngMin, lngMax) && Narrowed(lat, LAT_LO, LAT_SPAN, n, latMin, latMax)
  }

  lemma Halves(k: nat)
    ensures if k % 2 == 0 then (k + 1) / 2 == k / 2 && (k + 2) / 2 == k / 2 + 1
            else (k + 1) / 2 == k / 2 + 1 && (k + 2) / 2 == (k + 1) / 2
  {
  }

  /** One more bit: longitude and latitude take turns. */
  method NextBit(lat: real, lng: real, isEven: bool, lngMin: real, lngMax: real, latMin: real, latMax: real, ghost k: nat)
    returns (bit: nat, lngMin': real, lngMax': real, latMin': real, latMax': real)
    requires Turn(isEven, k) && BoxAt(lat, lng, k, lngMin, lngMax, latMin, latMax)
    ensures bit <= 1 && bit == BitAt(lat, lng, k)
    ensures BoxAt(lat, lng, k + 1, lngMin', lngMax', latMin', latMax')
  {
    Halves(k);
    lngMin', lngMax', latMin', latMax' := lngMin, lngMax, latMin, latMax;
    if isEven {
      bit, lngMin', lngMax' := Bisect(lng, lngMin, lngMax, LNG_LO, LNG_SPAN, k / 2);
    } else {
      bit, latMin', latMax' := Bisect(lat, latMin, latMax, LAT_LO, LAT_SPAN, k / 2);
    }
  }

  lemma CodeStep(lat: real, lng: real, k: nat)
    ensures CodeAt(lat, lng, k + 1) == 2 * CodeAt(lat, lng, k) + BitAt(lat, lng, k)
  {
  }

  /** x followed by n zero bits. */
  function Shift(x: nat, n: nat): nat {
    if n == 0 then x else 2 * Shift(x, n - 1)
  }

  lemma {:induction false} ShiftIsProduct(x: nat, n: nat)
    ensures Shift(x, n) == x * Pow2(n)
  {
    if n > 0 {
      ShiftIsProduct(x, n - 1);
      assert x * (2 * Pow2(n - 1)) == 2 * (x * Pow2(n - 1));
    }
  }

  lemma ShiftByFive(x: nat)
    ensures Shift(x, 5) == 32 * x && Pow2(5) == 32
  {
    ShiftIsProduct(x, 5);
    assert Pow2(5) == 32;
  }

  /** `prefix` is what the finished characters spell; the bits of ch follow it in the code. */
  ghost predicate Spelled(prefix: nat, code: nat, hash: string, ch: nat, bits: nat) {
    ch < Pow2(bits) && code == Shift(prefix, bits) + ch && hash == Text(prefix, |hash|)
  }

  lemma SpellBit(prefix: nat, code: nat, hash: string, ch: nat, bits: nat, bit: nat)
    requires Spelled(prefix, code, hash, ch, bits) && bit <= 1
    ensures Spelled(prefix, 2 * code + bit, hash, 2 * ch + bit, bits + 1)
  {
  }

  lemma SpellChar(prefix: nat, code: nat, hash: string, ch: nat)
    requires Spelled(prefix, code, hash, ch, 5)
    ensures ch < 32 && Spelled(code, code, hash + [BASE32[ch]], 0, 0)
  {
    assert Pow2(0) == 1;
    ShiftByFive(prefix);
    Base32Char(ch);
    assert code / 32 == prefix && code % 32 == ch;
  }

  lemma NarrowedAtStart(v: real, lo: real, span: real, n: nat)
    requires n == 0
    ensures Narrowed(v, lo, span, n, lo, lo + span)
  {
  }

  lemma NothingSpelled()
    ensures Spelled(0, 0, "", 0, 0)
  {
  }

  lemma BoxAtStart(lat: real, lng: real, k: nat)
    requires k == 0
    ensures BoxAt(lat, lng, k, -180.0, 180.0, -90.0, 90.0)
  {
    NarrowedAtStart(lng, LNG_LO, LNG_SPAN, (k + 1) / 2);
    NarrowedAtStart(lat, LAT_LO, LAT_SPAN, k / 2);
  }

  /** Nothing taken yet: no bits, code 0. */
  lemma Start(lat: real, lng: real) returns (k: nat, code: nat, prefix: nat)
    ensures k == 0 && BoxAt(lat, lng, k, -180.0, 180.0, -90.0, 90.0)
    ensures code == CodeAt(lat, lng, k) && Spelled(prefix, code, "", 0, 0)
  {
    k, code, prefix := 0, 0, 0;
    BoxAtStart(lat, lng, k);
    NothingSpelled();
  }

  /** One bit more: the character under construction grows, or is finished. */
  method AddBit(hash: string, ch: nat, bits: nat, bit: nat, ghost prefix: nat, ghost code: nat)
    returns (hash': string, ch': nat, bits': nat, ghost prefix': nat)
    requires bits < 5 && bit <= 1 && Spelled(prefix, code, hash, ch, bits)
    ensures Spelled(prefix', 2 * code + bit, hash', ch', bits')
    ensures bits' < 5 && Position(hash', bits') == Position(hash, bits) + 1
  {
    SpellBit(prefix, code, hash, ch, bits, bit);
    hash', ch', bits', prefix' := hash, ch * 2 + bit, bits + 1, prefix;
    if bits' == 5 {
      SpellChar(prefix, 2 * code + bit, hash, ch');
      prefix' := 2 * code + bit;
      hash' := hash + [BASE32[ch']];
      bits', ch' := 0, 0;
    }
  }

  /** Bits taken so far. */
  function Position(hash: string, bits: nat): nat { 5 * |hash| + bits }

  predicate Turn(isEven: bool, k: nat) { isEven == (k % 2 == 0) }

  lemma Alternates(isEven: bool, k: nat)
    requires Turn(isEven, k)
    ensures Turn(!isEven, k + 1)
  {
  }

  method Geohash6(lat: real, lng: real) returns (hash: string)
    ensures hash == GeohashOf(lat, lng)
  {
    hash := "";
    var latMin, latMax := -90.0, 90.0;
    var lngMin, lngMax := -180.0, 180.0;
    var isEven := true;
    var bits: nat, ch: nat := 0, 0;
    ghost var k, code, prefix := Start(lat, lng);
    while |hash| < 6
      invariant bits < 5 && k == Position(hash, bits) && k <= 30
      invariant Turn(isEven, k) && BoxAt(lat, lng, k, lngMin, lngMax, latMin, latMax)
      invariant code == CodeAt(lat, lng, k) && Spelled(prefix, code, hash, ch, bits)
      decreases 30 - k
    {
      var bit;
      bit, lngMin, lngMax, latMin, latMax := NextBit(lat, lng, isEven, lngMin, lngMax, latMin, latMax, k);
      CodeStep(lat, lng, k);
      Alternates(isEven, k);
      hash, ch, bits, prefix := AddBit(hash, ch, bits, bit, prefix, code);
      isEven := !isEven;
      k, code := k + 1, 2 * code + bit;
    }
    SpelledWhole(prefix, code, hash, ch);
    WholeCode(lat, lng, k, code);
  }

  lemma WholeCode(lat: real, lng: real, k: nat, code: nat)
    requires k == 30 && code == CodeAt(lat, lng, k)
    ensures GeohashOf(lat, lng) == Text(code, 6)
  {
  }

  // ---------- main results ----------

  /** Inverse of the text: the cell it names. */
  function Decode(s: string): Option<(nat, nat)> {
    var c := FromText(s);
    if c.None? then None else Some(Deinterleave(c.value, 5 * |s|))
  }

  /** The point lies in cell (x, y) of the grid of k bits. */
  predicate InCells(lat: real, lng: real, k: nat, x: nat, y: nat) {
    InCell(lng, LNG_LO, LNG_SPAN, (k + 1) / 2, x) && InCell(lat, LAT_LO, LAT_SPAN, k / 2, y)
  }

  lemma {:induction false} PowersAgree(n: nat)
    ensures Pow2(5 * n) == Pow32(n)
  {
    if n > 0 {
      PowersAgree(n - 1);
      var m := 5 * (n - 1);
      assert Pow2(m + 5) == 2 * Pow2(m + 4) == 4 * Pow2(m + 3) == 8 * Pow2(m + 2) == 16 * Pow2(m + 1) == 32 * Pow2(m);
    }
  }

  /** Decoding gives back the two indices. */
  lemma DecodeInverse(lat: real, lng: real, n: nat, k: nat)
    requires k == 5 * n
    ensures Decode(CodeText(lat, lng, n)) == Some((Ix(lng, LNG_LO, LNG_SPAN, (k + 1) / 2), Ix(lat, LAT_LO, LAT_SPAN, k / 2)))
  {
    var x, y := Ix(lng, LNG_LO, LNG_SPAN, (k + 1) / 2), Ix(lat, LAT_LO, LAT_SPAN, k / 2);
    IxBound(lng, LNG_LO, LNG_SPAN, (k + 1) / 2);
    IxBound(lat, LAT_LO, LAT_SPAN, k / 2);
    CodeInterleaves(lat, lng, k);
    InterleaveInverse(x, y, k);
    PowersAgree(n);
    TextInverse(CodeAt(lat, lng, k), n);
  }

  lemma IxExactly(v: real, lo: real, span: real, n: nat, i: nat)
    requires span > 0.0
    ensures Ix(v, lo, span, n) == i <==> InCell(v, lo, span, n, i)
  {
    IxInCell(v, lo, span, n);
    if InCell(v, lo, span, n, i) { CellUnique(v, lo, span, n, i, Ix(v, lo, span, n)); }
  }

  /** Decoding the n-character text of a point names the one cell the point lies in. */
  lemma DecodeNamesCell(lat: real, lng: real, n: nat, x: nat, y: nat)
    ensures Decode(CodeText(lat, lng, n)) == Some((x, y)) <==> InCells(lat, lng, 5 * n, x, y)
  {
    DecodeInverse(lat, lng, n, 5 * n);
    IxExactly(lng, LNG_LO, LNG_SPAN, (5 * n + 1) / 2, x);
    IxExactly(lat, LAT_LO, LAT_SPAN, 5 * n / 2, y);
  }

  /** The indices determine the text. */
  lemma SameIndicesSameText(lat1: real, lng1: real, lat2: real, lng2: real, n: nat, x: nat, y: nat)
    requires Decode(CodeText(lat1, lng1, n)) == Some((x, y)) == Decode(CodeText(lat2, lng2, n))
    ensures CodeText(lat1, lng1, n) == CodeText(lat2, lng2, n)
  {
    DecodeInverse(lat1, lng1, n, 5 * n);
    DecodeInverse(lat2, lng2, n, 5 * n);
    CodeInterleaves(lat1, lng1, 5 * n);
    CodeInterleaves(lat2, lng2, 5 * n);
  }

  /** Two points get the same text exactly when they lie in the same cell. */
  lemma SameTextSameCell(lat1: real, lng1: real, lat2: real, lng2: real, n: nat)
    ensures CodeText(lat1, lng1, n) == CodeText(lat2, lng2, n)
            <==> exists x, y :: InCells(lat1, lng1, 5 * n, x, y) && InCells(lat2, lng2, 5 * n, x, y)
  {
    if CodeText(lat1, lng1, n) == CodeText(lat2, lng2, n) {
      DecodeInverse(lat1, lng1, n, 5 * n);
      var (x, y) := Decode(CodeText(lat1, lng1, n)).value;
      DecodeNamesCell(lat1, lng1, n, x, y);
      DecodeNamesCell(lat2, lng2, n, x, y);
    }
    if x, y :| InCells(lat1, lng1, 5 * n, x, y) && InCells(lat2, lng2, 5 * n, x, y) {
      DecodeNamesCell(lat1, lng1, n, x, y);
      DecodeNamesCell(lat2, lng2, n, x, y);
      SameIndicesSameText(lat1, lng1, lat2, lng2, n, x, y);
    }
  }

  lemma {:induction false} TopEdge(lo: real, span: real, n: nat)
    ensures Edge(lo, Width(span, n), Pow2(n)) == lo + span
  {
    if n > 0 {
      TopEdge(lo, span, n - 1);
      TimesHalve(Pow2(n - 1), Width(span, n - 1));
      assert Pow2(n) == 2 * Pow2(n - 1) && Width(span, n) == Width(span, n - 1) / 2.0;
    } else {
      assert Times(1, span) == Times(0, span) + span;
    }
  }

  /** Within the range of the axis a cell contains its points; only the last cell is closed above. */
  lemma CellContains(v: real, lo: real, span: real, n: nat, i: nat)
    requires span > 0.0 && lo <= v <= lo + span && InCell(v, lo, span, n, i)
    ensures Edge(lo, Width(span, n), i) <= v <= Edge(lo, Width(span, n), i + 1)
    ensures v < lo + span ==> v < Edge(lo, Width(span, n), i + 1)
  {
    TopEdge(lo, span, n);
  }

  /** Cell i of an axis cut into cells of width w contains v; only the last cell is closed above. */
  predicate Covers(lo: real, span: real, w: real, i: nat, v: real) {
    Edge(lo, w, i) <= v <= Edge(lo, w, i + 1) && (v < lo + span ==> v < Edge(lo, w, i + 1))
  }

  predicate OnGlobe(lat: real, lng: real) { -90.0 <= lat <= 90.0 && -180.0 <= lng <= 180.0 }

  /** The cell measures 360/2^15 by 180/2^15 degrees and contains the point. */
  predicate CellCovers(cell: (nat, nat), lat: real, lng: real) {
    && Covers(LNG_LO, LNG_SPAN, LNG_SPAN / 32768.0, cell.0, lng)
    && Covers(LAT_LO, LAT_SPAN, LAT_SPAN / 32768.0, cell.1, lat)
  }

  lemma IndicesCover(lat: real, lng: real, m: nat)
    requires OnGlobe(lat, lng) && m == 15
    ensures CellCovers((Ix(lng, LNG_LO, LNG_SPAN, m), Ix(lat, LAT_LO, LAT_SPAN, m)), lat, lng)
  {
    AxisContains(lng, LNG_LO, LNG_SPAN, m);
    AxisContains(lat, LAT_LO, LAT_SPAN, m);
  }

  /** The decoded cell of six characters contains every point of the globe encoded to it. */
  lemma CellContainsPoint(lat: real, lng: real, n: nat)
    requires OnGlobe(lat, lng) && n == 6
    ensures var cell := Decode(CodeText(lat, lng, n));
            cell.Some? && CellCovers(cell.value, lat, lng)
  {
    DecodeInverse(lat, lng, n, 5 * n);
    assert (5 * n + 1) / 2 == 5 * n / 2;
    IndicesCover(lat, lng, 5 * n / 2);
  }

  lemma AxisContains(v: real, lo: real, span: real, n: nat)
    requires span > 0.0 && lo <= v <= lo + span && n == 15
    ensures Covers(lo, span, span / 32768.0, Ix(v, lo, span, n), v)
  {
    IxInCell(v, lo, span, n);
    CellContains(v, lo, span, n, Ix(v, lo, span, n));
    WidthOf15(span, n);
  }

  lemma {:induction false} WidthTimesPow(span: real, n: nat)
    ensures Width(span, n) * Pow2(n) as real == span
  {
    if n > 0 {
      WidthTimesPow(span, n - 1);
      var w, p := Width(span, n - 1), Pow2(n - 1) as real;
      assert (w / 2.0) * (2.0 * p) == w * p;
    }
  }

  lemma WidthOf15(span: real, n: nat)
    requires n == 15
    ensures Width(span, n) == span / 32768.0
  {
    WidthTimesPow(span, n);
    assert Pow2(5) == 32 && Pow2(10) == 1024 && Pow2(15) == 32768;
  }

  // ---------- the alphabet and a known point ----------

  /** Digits and small letters without a, i, l and o. */
  predicate InAlphabet(c: char) { ('0' <= c <= '9' || 'a' <= c <= 'z') && c !in "ailo" }

  /** The 32 characters count upwards in the order of their codes. */
  lemma AlphabetExactly(c: char, d: char)
    ensures Digit32(c).Some? <==> InAlphabet(c)
    ensures InAlphabet(c) ==> Digit32(c).value < 32
    ensures InAlphabet(c) && InAlphabet(d) && c < d ==> Digit32(c).value < Digit32(d).value
  {
  }

  /** Cell i of n halvings, without the repeated sums. */
  lemma InCellAt(v: real, lo: real, span: real, n: nat, i: nat, p: nat)
    requires p == Pow2(n) && 0 < i < p - 1
    ensures InCell(v, lo, span, n, i) <==>
            lo * p as real + i as real * span <= v * p as real < lo * p as real + (i + 1) as real * span
  {
    WidthTimesPow(span, n);
    EdgeScaled(v, lo, Width(span, n), p as real, i, span);
    EdgeScaled(v, lo, Width(span, n), p as real, i + 1, span);
  }

  lemma EdgeScaled(v: real, lo: real, w: real, q: real, i: nat, span: real)
    requires q > 0.0 && w * q == span
    ensures Edge(lo, w, i) <= v <==> lo * q + i as real * span <= v * q
  {
    var e, x := Edge(lo, w, i), i as real;
    TimesIsProduct(i, w);
    assert e == lo + x * w;
    assert e * q == lo * q + x * (w * q);
    if e <= v { assert (v - e) * q >= 0.0; } else { assert (e - v) * q > 0.0; }
  }

  /** A point in Jutland, in cell 17331 of longitude and 26878 of latitude. */
  lemma JutlandCell(lat: real, lng: real, m: nat)
    requires lat == 57.64911 && lng == 10.40744 && m == 15
    ensures Ix(lng, LNG_LO, LNG_SPAN, m) == 17331 && Ix(lat, LAT_LO, LAT_SPAN, m) == 26878
  {
    assert Pow2(5) == 32 && Pow2(10) == 1024 && Pow2(15) == 32768;
    InCellAt(lng, LNG_LO, LNG_SPAN, m, 17331, 32768);
    InCellAt(lat, LAT_LO, LAT_SPAN, m, 26878, 32768);
    IxExactly(lng, LNG_LO, LNG_SPAN, m, 17331);
    IxExactly(lat, LAT_LO, LAT_SPAN, m, 26878);
  }

  lemma JutlandCode(x: nat, y: nat, k: nat)
    requires (x, y, k) == (17331, 26878, 30)
    ensures Interleave(x, y, k) == 877322078
  {
    assert Interleave(4, 6, 6) == 52;
    assert Interleave(33, 52, 12) == 3346;
    assert Interleave(270, 419, 18) == 214189;
    assert Interleave(2166, 3359, 24) == 13708157;
  }

  lemma TextNext(c: nat, n: nat, m: nat, d: nat, before: string)
    requires m == n + 1 && d < 32 && Text(c, n) == before
    ensures Text(32 * c + d, m) == before + [Char32(d)]
  {
    assert (32 * c + d) / 32 == c && (32 * c + d) % 32 == d;
  }

  lemma JutlandText(c: nat, n: nat)
    requires (c, n) == (877322078, 6)
    ensures Text(c, n) == "u4pruy"
  {
    TextNext(0, 0, 1, 26, "");
    TextNext(26, 1, 2, 4, "u");
    TextNext(836, 2, 3, 21, "u4");
    TextNext(26773, 3, 4, 23, "u4p");
    TextNext(856759, 4, 5, 26, "u4pr");
    TextNext(27416314, 5, n, 30, "u4pru");
  }

  /** The well-known example. */
  lemma JutlandIsU4pruy(lat: real, lng: real, n: nat)
    requires lat == 57.64911 && lng == 10.40744 && n == 6
    ensures CodeText(lat, lng, n) == "u4pruy"
  {
    var k := 5 * n;
    assert (k + 1) / 2 == k / 2 == 15;
    JutlandCell(lat, lng, k / 2);
    CodeInterleaves(lat, lng, k);
    JutlandCode(Ix(lng, LNG_LO, LNG_SPAN, k / 2), Ix(lat, LAT_LO, LAT_SPAN, k / 2), k);
    JutlandText(CodeAt(lat, lng, k), n);
  }
}
