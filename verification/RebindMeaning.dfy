/** What a rebound query means: token for token, and which number each marker gets. */
module RebindMeaning {
  import opened Common
  import opened Rebind

  // ---------- the output re-lexes to the intended tokens ----------

  /** Reading does not depend on what stands before the start. */
  lemma {:induction false} DigitEndShift(a: string, b: string, i: nat)
    requires i <= |b|
    ensures DigitEnd(a + b, |a| + i) == |a| + DigitEnd(b, i)
    decreases |b| - i
  {
    if i < |b| {
      assert (a + b)[|a| + i] == b[i];
      DigitEndShift(a, b, i + 1);
    }
  }

  lemma HeadShift(a: string, b: string, i: nat, inStr: bool)
    requires i < |b|
    ensures var (t, j, c) := Head(b, i, inStr);
            Head(a + b, |a| + i, inStr) == (t, |a| + j, c)
  {
    var u := a + b;
    assert u[|a| + i] == b[i] && (i + 1 < |b| ==> u[|a| + i + 1] == b[i + 1]);
    DigitEndShift(a, b, i + 1);
    var j := DigitEnd(b, i + 1);
    assert u[|a| + i + 1..|a| + j] == b[i + 1..j];
  }

  lemma {:induction false} LexShift(a: string, b: string, i: nat, inStr: bool)
    requires i <= |b|
    ensures Lex(a + b, |a| + i, inStr) == Lex(b, i, inStr)
    decreases |b| - i
  {
    if i < |b| {
      HeadShift(a, b, i, inStr);
      var (t, j, c) := Head(b, i, inStr);
      LexShift(a, b, j, c);
    }
  }

  /** `o` may follow a rewritten token wherever the rest of q from j followed the original one. */
  ghost predicate SameStart(q: string, j: nat, o: string)
    requires j <= |q|
  {
    if j == |q| then o == "" else o != "" && (o[0] == q[j] || (q[j] == '?' && o[0] == '$'))
  }

  /** Rewriting keeps the first byte, except that a marker's `?` becomes `$`. */
  lemma HeadByteKept(q: string, i: nat, b: bool, used: set<nat>, next: nat)
    requires i <= |q| && Number(Lex(q, i, b), used, next).Some?
    ensures SameStart(q, i, Unlex(Number(Lex(q, i, b), used, next).value))
  {
    if i < |q| {
      NumberHead(q, i, b, used, next);
      var ts := Number(Lex(q, i, b), used, next).value;
      assert Unlex(ts) == Spell(ts[0]) + Unlex(ts[1..]);
    }
  }

  lemma {:induction false} DigitEndOf(s: string, i: nat, j: nat)
    requires i <= j <= |s| && (j < |s| ==> !IsDigit(s[j]))
    requires forall k | i <= k < j :: IsDigit(s[k])
    ensures DigitEnd(s, i) == j
    decreases j - i
  {
    if i < j { DigitEndOf(s, i + 1, j); }
  }

  lemma HeadOfDollar(d: string, o: string)
    requires AllDigits(d) && (o != "" ==> !IsDigit(o[0]))
    ensures Head("$" + d + o, 0, false) == (Dollar(d), |d| + 1, false)
  {
    var u := "$" + d + o;
    assert forall k | 1 <= k < |d| + 1 :: u[k] == d[k - 1];
    DigitEndOf(u, 1, |d| + 1);
    assert u[1..|d| + 1] == d;
  }

  lemma HeadOfCopied(q: string, i: nat, b: bool, o: string)
    requires i < |q| && !Head(q, i, b).0.Ask? && !Head(q, i, b).0.Dollar?
    requires SameStart(q, Head(q, i, b).1, o)
    ensures var (t, j, c) := Head(q, i, b);
            Head(Spell(t) + o, 0, b) == (t, |Spell(t)|, c)
  {
    var (t, j, c) := Head(q, i, b);
    var u := Spell(t) + o;
    assert u[0] == q[i];
  }

  /** Reading back a rewritten head before any text that may follow it. */
  lemma HeadOfRewritten(t: Token, q: string, i: nat, b: bool, o: string)
    requires i < |q|
    requires t == Head(q, i, b).0 || Head(q, i, b).0.Ask?
    requires Head(q, i, b).0.Ask? ==> t.Dollar? && AllDigits(t.digits)
    requires SameStart(q, Head(q, i, b).1, o)
    ensures Head(Spell(t) + o, 0, b) == (t, |Spell(t)|, Head(q, i, b).2)
  {
    if t.Dollar? {
      DigitEndIsEnd(q, i + 1);
      HeadOfDollar(t.digits, o);
    } else {
      HeadOfCopied(q, i, b, o);
    }
  }

  lemma LexCons(t: Token, o: string, b: bool, c: bool)
    requires Spell(t) != "" && Head(Spell(t) + o, 0, b) == (t, |Spell(t)|, c)
    ensures Lex(Spell(t) + o, 0, b) == [t] + Lex(o, 0, c)
  {
    LexShift(Spell(t), o, 0, c);
  }

  /** Re-lexing the output gives exactly the rewritten tokens: no digit run-on, no lost quote. */
  lemma {:induction false} Relex(q: string, i: nat, b: bool, used: set<nat>, next: nat)
    requires i <= |q| && Number(Lex(q, i, b), used, next).Some?
    ensures var ts := Number(Lex(q, i, b), used, next).value;
            Lex(Unlex(ts), 0, b) == ts
    decreases |q| - i
  {
    if i < |q| {
      var ts := Number(Lex(q, i, b), used, next).value;
      var (t0, j, c) := Head(q, i, b);
      NumberHead(q, i, b, used, next);
      var used1 := if Bare(t0) then used + {NextFree(used, next)} else if Explicit(t0) then used + {Num(t0)} else used;
      var next1 := if Bare(t0) then NextFree(used, next) + 1 else next;
      var tail := Number(Lex(q, j, c), used1, next1);
      assert tail.Some? && ts == [ts[0]] + tail.value;
      Relex(q, j, c, used1, next1);
      HeadByteKept(q, j, c, used1, next1);
      assert Unlex(ts) == Spell(ts[0]) + Unlex(tail.value);
      HeadOfRewritten(ts[0], q, i, b, Unlex(tail.value));
      LexCons(ts[0], Unlex(tail.value), b, c);
    }
  }

  lemma SpellHead(q: string, i: nat, b: bool)
    requires i < |q|
    ensures Spell(Head(q, i, b).0) == q[i..Head(q, i, b).1]
  {
    assert q[i..i + 1] == [q[i]];
    if i + 1 < |q| { assert q[i..i + 2] == [q[i], q[i + 1]]; }
    var j := DigitEnd(q, i + 1);
    assert q[i..j] == [q[i]] + q[i + 1..j];
  }

  lemma {:induction false} UnlexLex(q: string, i: nat, b: bool)
    requires i <= |q|
    ensures Unlex(Lex(q, i, b)) == q[i..]
    decreases |q| - i
  {
    if i < |q| {
      var (t, j, c) := Head(q, i, b);
      UnlexLex(q, j, c);
      assert ([t] + Lex(q, j, c))[1..] == Lex(q, j, c);
      SpellHead(q, i, b);
      assert q[i..] == q[i..j] + q[j..];
    }
  }

  // ---------- which bytes are literals and markers ----------

  /** Single quotes among the first i bytes. */
  function Quotes(q: string, i: nat): nat
    requires i <= |q|
  {
    if i == 0 then 0 else Quotes(q, i - 1) + if q[i - 1] == '\'' then 1 else 0
  }

  /** Byte i stands inside a literal: an odd number of quotes before it. */
  predicate Inside(q: string, i: nat)
    requires i <= |q|
  {
    Quotes(q, i) % 2 == 1
  }

  /** Token t is what stands at byte i: a marker outside literals, with all the digits that follow it, or a copied byte. */
  ghost predicate StandsAt(q: string, t: Token, i: nat) {
    var j := i + |Spell(t)|;
    && i < j <= |q| && q[i..j] == Spell(t)
    && (t.Ask? <==> q[i] == '?' && !Inside(q, i)) && (t.Dollar? <==> q[i] == '$' && !Inside(q, i))
    && (t.Lit? <==> q[i] == '\'' || Inside(q, i))
    && (t.Ask? || t.Dollar? ==> AllDigits(t.digits) && (j < |q| ==> !('0' <= q[j] <= '9')))
  }

  lemma {:induction false} NoQuotesInDigits(q: string, i: nat, j: nat)
    requires i <= j <= |q| && forall k | i <= k < j :: IsDigit(q[k])
    ensures Quotes(q, j) == Quotes(q, i)
    decreases j - i
  {
    if i < j { NoQuotesInDigits(q, i, j - 1); }
  }

  lemma QuotesNext(q: string, i: nat)
    requires i < |q|
    ensures Quotes(q, i + 1) == Quotes(q, i) + if q[i] == '\'' then 1 else 0
    ensures i + 1 < |q| ==> Quotes(q, i + 2) == Quotes(q, i + 1) + if q[i + 1] == '\'' then 1 else 0
  {
  }

  /** The next token, and whether a literal is open after it. */
  lemma HeadInside(q: string, i: nat, b: bool)
    requires i < |q| && b == Inside(q, i)
    ensures Head(q, i, b).2 == Inside(q, Head(q, i, b).1)
  {
    QuotesNext(q, i);
    var (t, j, c) := Head(q, i, b);
    if t.Ask? || t.Dollar? {
      DigitEndIsEnd(q, i + 1);
      NoQuotesInDigits(q, i + 1, j);
    }
  }

  lemma HeadStands(q: string, i: nat, b: bool)
    requires i < |q| && b == Inside(q, i)
    ensures var (t, j, c) := Head(q, i, b);
            StandsAt(q, t, i) && j == i + |Spell(t)| && c == Inside(q, j)
  {
    HeadInside(q, i, b);
    SpellHead(q, i, b);
    var (t, j, c) := Head(q, i, b);
    assert |q[i..j]| == j - i;
    if t.Ask? || t.Dollar? {
      DigitEndIsEnd(q, i + 1);
      assert j == DigitEnd(q, i + 1) && t.digits == q[i + 1..j];
    }
  }

  /** From byte i on, the query is these tokens, one after the other. */
  ghost predicate Pieces(q: string, i: nat, ts: seq<Token>)
    decreases |ts|
  {
    if ts == [] then i == |q| else StandsAt(q, ts[0], i) && Pieces(q, i + |Spell(ts[0])|, ts[1..])
  }

  lemma {:induction false} LexPieces(q: string, i: nat, b: bool, ts: seq<Token>)
    requires i <= |q| && b == Inside(q, i) && ts == Lex(q, i, b)
    ensures Pieces(q, i, ts)
    decreases |q| - i
  {
    if i < |q| {
      var (t, j, c) := Head(q, i, b);
      var rest := Lex(q, j, c);
      HeadStands(q, i, b);
      assert ts == [t] + rest && ts[1..] == rest;
      LexPieces(q, j, c, rest);
    }
  }

  /** The tokens are the query cut into pieces, each what the quotes before it make of it. */
  lemma TokensExactly(q: string)
    ensures Unlex(Tokens(q)) == q && Pieces(q, 0, Tokens(q))
  {
    UnlexLex(q, 0, false);
    LexPieces(q, 0, false, Tokens(q));
  }

  // ---------- the intended numbering, stated position by position ----------

  predicate LeastFree(k: nat, taken: set<nat>) {
    k >= 1 && k !in taken && forall j | 1 <= j < k :: j in taken
  }

  /** Numbers that `out` gives to the markers among the first i tokens. */
  function Emitted(ts: seq<Token>, out: seq<Token>, i: nat): set<nat>
    requires i <= |ts| == |out|
  {
    if i == 0 then {}
    else Emitted(ts, out, i - 1) + if ts[i - 1].Ask? then {Num(out[i - 1])} else {}
  }

  predicate NumberedAt(ts: seq<Token>, out: seq<Token>, taken: set<nat>, i: nat)
    requires i < |ts| == |out|
  {
    if Bare(ts[i]) then
      out[i] == Dollar(Decimal(Num(out[i])))
      && LeastFree(Num(out[i]), taken + Emitted(ts, out, i))
    else if Explicit(ts[i]) then
      Num(ts[i]) >= 1 && out[i] == Dollar(Decimal(Num(ts[i])))
    else out[i] == ts[i]
  }

  /** `out` numbers `ts`, the numbers in `taken` being in use from the start. */
  ghost predicate Numbering(ts: seq<Token>, out: seq<Token>, taken: set<nat>) {
    |ts| == |out| && forall i | 0 <= i < |ts| :: NumberedAt(ts, out, taken, i)
  }

  /**
   * The rewriter's promise: every bare marker takes the least positive number not
   * written `$N` anywhere and not given to a marker on its left, `?N` becomes `$N`,
   * and everything else stays.
   */
  ghost predicate IsRebinding(ts: seq<Token>, out: seq<Token>) {
    Numbering(ts, out, Claims(ts))
  }

  lemma EmittedCons(ts: seq<Token>, out: seq<Token>, i: nat)
    requires i < |ts| == |out|
    ensures Emitted(ts, out, i + 1) == Emitted(ts, out, 1) + Emitted(ts[1..], out[1..], i)
  {
  }

  lemma {:induction false} NumberingCons(ts: seq<Token>, out: seq<Token>, taken: set<nat>)
    requires ts != [] && |ts| == |out|
    requires NumberedAt(ts, out, taken, 0)
    requires Numbering(ts[1..], out[1..], taken + Emitted(ts, out, 1))
    ensures Numbering(ts, out, taken)
  {
    forall i | 1 <= i < |ts|
      ensures NumberedAt(ts, out, taken, i)
    {
      EmittedCons(ts, out, i - 1);
      assert taken + Emitted(ts, out, i) == taken + Emitted(ts, out, 1) + Emitted(ts[1..], out[1..], i - 1);
      assert NumberedAt(ts[1..], out[1..], taken + Emitted(ts, out, 1), i - 1);
    }
  }

  lemma {:induction false} NumberSound(ts: seq<Token>, used: set<nat>, next: nat)
    requires next >= 1 && forall k | 1 <= k < next :: k in used
    requires Number(ts, used, next).Some?
    ensures Numbering(ts, Number(ts, used, next).value, used)
  {
    if ts != [] {
      var out := Number(ts, used, next).value;
      var k := if Bare(ts[0]) then NextFree(used, next) else Num(ts[0]);
      ValueOfDecimal(k);
      if Bare(ts[0]) { NextFreeIsLeast(used, next); }
      assert Emitted(ts, out, 1) == if ts[0].Ask? then {k} else {};
      var used1 := used + Emitted(ts, out, 1);
      var next1 := if Bare(ts[0]) then k + 1 else next;
      assert Number(ts[1..], used1, next1) == Some(out[1..]) by {
        if !ts[0].Ask? { assert used1 == used; }
      }
      NumberSound(ts[1..], used1, next1);
      assert Emitted(ts, out, 0) == {} && used + {} == used;
      NumberingCons(ts, out, used);
    }
  }

  lemma {:induction false} NumberFails(ts: seq<Token>, used: set<nat>, next: nat)
    ensures Number(ts, used, next).None? <==> exists i :: 0 <= i < |ts| && Explicit(ts[i]) && Num(ts[i]) == 0
  {
    if ts != [] {
      var used1, next1 :=
        if Bare(ts[0]) then used + {NextFree(used, next)} else if Explicit(ts[0]) then used + {Num(ts[0])} else used,
        if Bare(ts[0]) then NextFree(used, next) + 1 else next;
      NumberFails(ts[1..], used1, next1);
      var bad := exists i :: 0 <= i < |ts[1..]| && Explicit(ts[1..][i]) && Num(ts[1..][i]) == 0;
      if bad {
        var i :| 0 <= i < |ts[1..]| && Explicit(ts[1..][i]) && Num(ts[1..][i]) == 0;
        assert Explicit(ts[i + 1]) && Num(ts[i + 1]) == 0;
      }
      if i :| 0 <= i < |ts| && Explicit(ts[i]) && Num(ts[i]) == 0 && i > 0 {
        assert Explicit(ts[1..][i - 1]) && Num(ts[1..][i - 1]) == 0;
      }
    }
  }

  lemma {:induction false} NumberingUnique(ts: seq<Token>, a: seq<Token>, b: seq<Token>, taken: set<nat>, i: nat)
    requires Numbering(ts, a, taken) && Numbering(ts, b, taken) && i <= |ts|
    ensures a[..i] == b[..i] && Emitted(ts, a, i) == Emitted(ts, b, i)
  {
    if i > 0 {
      NumberingUnique(ts, a, b, taken, i - 1);
      assert NumberedAt(ts, a, taken, i - 1) && NumberedAt(ts, b, taken, i - 1);
      assert a[..i] == a[..i - 1] + [a[i - 1]] && b[..i] == b[..i - 1] + [b[i - 1]];
    }
  }

  // ---------- main results ----------

  /** The output is exactly the query whose tokens are the promised rebinding. */
  lemma RebindExact(q: string, o: string)
    ensures Rebound(q) == Some(o) <==> IsRebinding(Tokens(q), Tokens(o))
  {
    var ts := Tokens(q);
    var n := Number(ts, Claims(ts), 1);
    NumberFails(ts, Claims(ts), 1);
    if n.Some? {
      NumberSound(ts, Claims(ts), 1);
      Relex(q, 0, false, Claims(ts), 1);
    }
    if IsRebinding(ts, Tokens(o)) {
      forall i | 0 <= i < |ts|
        ensures !(Explicit(ts[i]) && Num(ts[i]) == 0)
      {
        assert NumberedAt(ts, Tokens(o), Claims(ts), i);
      }
      NumberingUnique(ts, n.value, Tokens(o), Claims(ts), |ts|);
      assert n.value[..|ts|] == n.value && Tokens(o)[..|ts|] == Tokens(o);
      UnlexLex(o, 0, false);
    }
  }

  /** It fails exactly on an explicit marker whose number is zero. */
  lemma RebindFailsExactly(q: string)
    ensures Rebound(q) == None <==>
            exists i :: 0 <= i < |Tokens(q)| && Explicit(Tokens(q)[i]) && Num(Tokens(q)[i]) == 0
  {
    NumberFails(Tokens(q), Claims(Tokens(q)), 1);
  }

  /** No `?` marker is left outside literals, and rebinding again changes nothing. */
  lemma RebindIdempotent(q: string, o: string)
    requires Rebound(q) == Some(o)
    ensures forall t | t in Tokens(o) :: !t.Ask?
    ensures Rebound(o) == Some(o)
  {
    RebindExact(q, o);
    RebindExact(o, o);
    var ts, out := Tokens(q), Tokens(o);
    forall i | 0 <= i < |out|
      ensures !out[i].Ask? && NumberedAt(out, out, Claims(out), i)
    {
      assert NumberedAt(ts, out, Claims(ts), i);
    }
  }

  function Markers(ts: seq<Token>, i: nat): nat
    requires i <= |ts|
  {
    if i == 0 then 0 else Markers(ts, i - 1) + if ts[i - 1].Ask? then 1 else 0
  }

  /**
   * Static `$1..$m` with dynamic bare markers: the k-th bare marker binds argument m + k.
   * With m = 0 this is the plain sequential case.
   */
  lemma {:induction false} BareMarkersAreSequential(ts: seq<Token>, out: seq<Token>, m: nat, i: nat)
    requires IsRebinding(ts, out) && i <= |ts|
    requires forall t | t in ts :: !Explicit(t)
    requires forall n :: n in Claims(ts) <==> 1 <= n <= m
    ensures forall n :: n in Emitted(ts, out, i) <==> m < n <= m + Markers(ts, i)
    ensures i < |ts| && ts[i].Ask? ==> out[i] == Dollar(Decimal(m + 1 + Markers(ts, i)))
  {
    if i > 0 {
      BareMarkersAreSequential(ts, out, m, i - 1);
      assert NumberedAt(ts, out, Claims(ts), i - 1);
      if ts[i - 1].Ask? { ValueOfDecimal(m + 1 + Markers(ts, i - 1)); }
    }
    assert forall n :: n in Emitted(ts, out, i) <==> m < n <= m + Markers(ts, i);
    if i < |ts| && ts[i].Ask? {
      assert NumberedAt(ts, out, Claims(ts), i) && ts[i] in ts && Bare(ts[i]);
      var k, taken, expected := Num(out[i]), Claims(ts) + Emitted(ts, out, i), m + 1 + Markers(ts, i);
      assert LeastFree(expected, taken) && LeastFree(k, taken);
    }
  }

  // ---------- "skipping every number already present" ----------

  /** The documented wish: a bare marker never shares its number with any written `?N` or `$N`. */
  ghost predicate SkipsEveryWritten(ts: seq<Token>, out: seq<Token>)
    requires |ts| == |out|
  {
    forall i, j | 0 <= i < |ts| && 0 <= j < |ts| && Bare(ts[i]) && Written(ts[j]) ::
      Num(out[i]) != Num(ts[j])
  }

  predicate Written(t: Token) { (Explicit(t) || t.Dollar?) && Num(t) >= 1 }

  function Bares(ts: seq<Token>, i: nat): nat
    requires i <= |ts|
  {
    if i == 0 then 0 else Bares(ts, i - 1) + if Bare(ts[i - 1]) then 1 else 0
  }

  /** Numbers in use before token i without counting what bare markers took. */
  function Fixed(ts: seq<Token>, i: nat): set<nat>
    requires i <= |ts|
  {
    if i == 0 then Claims(ts)
    else Fixed(ts, i - 1) + if Explicit(ts[i - 1]) then {Num(ts[i - 1])} else {}
  }

  /** How many of 1..n are not in s. */
  function FreeUpTo(n: nat, s: set<nat>): nat {
    if n == 0 then 0 else FreeUpTo(n - 1, s) + if n in s then 0 else 1
  }

  /**
   * The guard on one explicit marker `?N`: N is `$N` somewhere or `?N` further left,
   * or more numbers up to N are free than there are bare markers on its left.
   */
  predicate SafeAt(ts: seq<Token>, j: nat)
    requires j < |ts|
  {
    Explicit(ts[j]) ==>
      Num(ts[j]) in Fixed(ts, j) || FreeUpTo(Num(ts[j]), Fixed(ts, j)) > Bares(ts, j)
  }

  lemma FreeUpToMonotone(a: nat, b: nat, s: set<nat>)
    requires a <= b
    ensures FreeUpTo(a, s) <= FreeUpTo(b, s)
    ensures a < b && b !in s ==> FreeUpTo(a, s) < FreeUpTo(b, s)
    ensures (forall k | a < k <= b :: k in s) ==> FreeUpTo(a, s) == FreeUpTo(b, s)
  {
    if a < b { FreeUpToMonotone(a, b - 1, s); }
  }

  lemma FreeUpToAdd(n: nat, s: set<nat>, x: nat)
    requires x > n
    ensures FreeUpTo(n, s + {x}) == FreeUpTo(n, s)
  {
  }

  predicate InUse(ts: seq<Token>, out: seq<Token>, i: nat, k: nat)
    requires i <= |ts| == |out|
  {
    k in Fixed(ts, i) || k in Emitted(ts, out, i)
  }

  /** hi is the last number a bare marker took; while every marker so far is safe, bare and fixed numbers stay apart. */
  ghost predicate Apart(ts: seq<Token>, out: seq<Token>, i: nat, hi: nat)
    requires i <= |ts| == |out|
  {
    && FreeUpTo(hi, Fixed(ts, i)) == Bares(ts, i)
    && (forall k | 1 <= k <= hi :: InUse(ts, out, i, k))
    && (forall k | k > hi && k in Emitted(ts, out, i) :: k in Fixed(ts, i))
    && (forall j | 0 <= j < i && Bare(ts[j]) :: Num(out[j]) <= hi && Num(out[j]) !in Fixed(ts, i))
    && (forall k | k in Emitted(ts, out, i) && k !in Fixed(ts, i) ::
          exists j :: 0 <= j < i && Bare(ts[j]) && Num(out[j]) == k)
  }

  lemma InUseGrows(ts: seq<Token>, out: seq<Token>, i: nat, i': nat)
    requires i' == i + 1 <= |ts| == |out|
    ensures forall k | InUse(ts, out, i, k) :: InUse(ts, out, i', k)
  {
  }

  lemma ApartBare(ts: seq<Token>, out: seq<Token>, i: nat, hi: nat)
    requires IsRebinding(ts, out) && i < |ts| && Apart(ts, out, i, hi) && Bare(ts[i])
    ensures Apart(ts, out, i + 1, Num(out[i]))
  {
    assert NumberedAt(ts, out, Claims(ts), i);
    var f, e, n := Fixed(ts, i), Emitted(ts, out, i), Num(out[i]);
    ClaimsAreFixed(ts, i);
    FixedAreEmitted(ts, out, i);
    assert n !in f && n !in e;
    assert !InUse(ts, out, i, n);
    assert n > hi;
    forall k | 1 <= k < n
      ensures InUse(ts, out, i, k) && (k > hi ==> k in f)
    {
      assert k in Claims(ts) + e;
    }
    FreeUpToMonotone(hi, n - 1, f);
    assert Fixed(ts, i + 1) == f && Emitted(ts, out, i + 1) == e + {n};
    forall k | k in Emitted(ts, out, i + 1) && k !in f
      ensures exists j :: 0 <= j < i + 1 && Bare(ts[j]) && Num(out[j]) == k
    {
      if k in e {
        var j :| 0 <= j < i && Bare(ts[j]) && Num(out[j]) == k;
      }
    }
  }

  lemma ApartExplicit(ts: seq<Token>, out: seq<Token>, i: nat, hi: nat)
    requires IsRebinding(ts, out) && i < |ts| && Apart(ts, out, i, hi) && Explicit(ts[i]) && SafeAt(ts, i)
    ensures Apart(ts, out, i + 1, hi)
  {
    assert NumberedAt(ts, out, Claims(ts), i);
    var f, e, n := Fixed(ts, i), Emitted(ts, out, i), Num(ts[i]);
    ValueOfDecimal(n);
    assert Fixed(ts, i + 1) == f + {n} && Emitted(ts, out, i + 1) == e + {n};
    if n in f {
      assert f + {n} == f;
    } else {
      if n <= hi { FreeUpToMonotone(n, hi, f); }
      FreeUpToAdd(hi, f, n);
    }
    forall k | k in Emitted(ts, out, i + 1) && k !in f + {n}
      ensures exists j :: 0 <= j < i + 1 && Bare(ts[j]) && Num(out[j]) == k
    {
      var j :| 0 <= j < i && Bare(ts[j]) && Num(out[j]) == k;
    }
    InUseGrows(ts, out, i, i + 1);
  }

  lemma ApartStep(ts: seq<Token>, out: seq<Token>, i: nat, hi: nat) returns (hi': nat)
    requires IsRebinding(ts, out) && i < |ts| && Apart(ts, out, i, hi) && SafeAt(ts, i)
    ensures Apart(ts, out, i + 1, hi')
  {
    hi' := hi;
    if Bare(ts[i]) {
      ApartBare(ts, out, i, hi);
      hi' := Num(out[i]);
    } else if Explicit(ts[i]) {
      ApartExplicit(ts, out, i, hi);
    } else {
      assert Fixed(ts, i + 1) == Fixed(ts, i) && Emitted(ts, out, i + 1) == Emitted(ts, out, i);
      InUseGrows(ts, out, i, i + 1);
    }
  }

  lemma ClaimsAreFixed(ts: seq<Token>, i: nat)
    requires i <= |ts|
    ensures Claims(ts) <= Fixed(ts, i)
  {
  }

  lemma {:induction false} FixedAreEmitted(ts: seq<Token>, out: seq<Token>, i: nat)
    requires IsRebinding(ts, out) && i <= |ts|
    ensures Fixed(ts, i) <= Claims(ts) + Emitted(ts, out, i)
  {
    if i > 0 {
      FixedAreEmitted(ts, out, i - 1);
      assert NumberedAt(ts, out, Claims(ts), i - 1);
      if Explicit(ts[i - 1]) { ValueOfDecimal(Num(ts[i - 1])); }
    }
  }

  lemma DollarsAreClaimed(ts: seq<Token>, j: nat)
    requires j < |ts| && ts[j].Dollar? && Num(ts[j]) >= 1
    ensures Num(ts[j]) in Claims(ts)
  {
    if j > 0 { DollarsAreClaimed(ts[1..], j - 1); }
  }

  lemma FixedHasExplicits(ts: seq<Token>, j: nat, i: nat)
    requires j < i <= |ts| && Explicit(ts[j])
    ensures Num(ts[j]) in Fixed(ts, i)
  {
    if i > j + 1 { FixedHasExplicits(ts, j, i - 1); }
  }

  lemma {:induction false} ApartAll(ts: seq<Token>, out: seq<Token>, i: nat) returns (hi: nat)
    requires IsRebinding(ts, out) && i <= |ts|
    requires forall j | 0 <= j < i :: SafeAt(ts, j)
    ensures Apart(ts, out, i, hi)
  {
    if i == 0 {
      hi := 0;
    } else {
      hi := ApartAll(ts, out, i - 1);
      hi := ApartStep(ts, out, i - 1, hi);
    }
  }

  /** The wish holds exactly when every explicit marker passes the guard. */
  lemma SkipsEveryWrittenExactly(ts: seq<Token>, out: seq<Token>)
    requires IsRebinding(ts, out)
    ensures SkipsEveryWritten(ts, out) <==> forall j | 0 <= j < |ts| :: SafeAt(ts, j)
  {
    if forall j | 0 <= j < |ts| :: SafeAt(ts, j) {
      var hi := ApartAll(ts, out, |ts|);
      forall i, j | 0 <= i < |ts| && 0 <= j < |ts| && Bare(ts[i]) && Written(ts[j])
        ensures Num(out[i]) != Num(ts[j])
      {
        ClaimsAreFixed(ts, |ts|);
        if Explicit(ts[j]) { FixedHasExplicits(ts, j, |ts|); } else { DollarsAreClaimed(ts, j); }
      }
    } else {
      FirstUnsafeClashes(ts, out, 0);
    }
  }

  lemma FirstUnsafeClashes(ts: seq<Token>, out: seq<Token>, i: nat)
    requires IsRebinding(ts, out) && i < |ts|
    requires forall j | 0 <= j < i :: SafeAt(ts, j)
    requires exists j :: i <= j < |ts| && !SafeAt(ts, j)
    ensures !SkipsEveryWritten(ts, out)
    decreases |ts| - i
  {
    if SafeAt(ts, i) {
      FirstUnsafeClashes(ts, out, i + 1);
    } else {
      var hi := ApartAll(ts, out, i);
      var n, f := Num(ts[i]), Fixed(ts, i);
      assert NumberedAt(ts, out, Claims(ts), i);
      if n > hi { FreeUpToMonotone(hi, n, f); }
      assert InUse(ts, out, i, n);
      var j :| 0 <= j < i && Bare(ts[j]) && Num(out[j]) == n;
      assert Written(ts[i]);
    }
  }

  /** The shortest offender: in `? ?1` both markers become `$1`. */
  lemma BareThenExplicitClash()
    ensures Rebound("? ?1") == Some("$1 $1")
    ensures !SafeAt(Tokens("? ?1"), 2)
  {
    var q := "? ?1";
    assert DigitEnd(q, 4) == 4 && DigitEnd(q, 3) == 4 && DigitEnd(q, 1) == 1;
    assert q[3..4] == "1" && q[1..1] == "";
    assert Lex(q, 4, false) == [];
    assert Head(q, 2, false) == (Ask("1"), 4, false) && Lex(q, 2, false) == [Ask("1")];
    assert Head(q, 1, false) == (Plain(' '), 2, false) && Lex(q, 1, false) == [Plain(' '), Ask("1")];
    assert Head(q, 0, false) == (Ask(""), 1, false);
    var ts := [Ask(""), Plain(' '), Ask("1")];
    assert Tokens(q) == ts;
    assert ts[1..] == [Plain(' '), Ask("1")] && ts[1..][1..] == [Ask("1")] && [Ask("1")][1..] == [];
    assert Claims([Ask("1")]) == {} && Claims(ts[1..]) == {} && Claims(ts) == {};
    assert "1"[..0] == "" && Value("") == 0 && Value("1") == 1 && Num(ts[2]) == 1;
    assert NextFree({}, 1) == 1 && Decimal(1) == "1";
    var one := {} + {1};
    assert Number([Ask("1")], one, 2) == Some([Dollar("1")]) by {
      assert Number([], one + {1}, 2) == Some([]);
      assert Explicit([Ask("1")][0]) && Num([Ask("1")][0]) == 1;
      assert [Dollar("1")] + [] == [Dollar("1")];
    }
    assert [Plain(' ')] + [Dollar("1")] == [Plain(' '), Dollar("1")];
    assert Number(ts[1..], one, 2) == Some([Plain(' '), Dollar("1")]);
    var out := [Dollar("1"), Plain(' '), Dollar("1")];
    assert [Dollar("1")] + [Plain(' '), Dollar("1")] == out;
    assert Number(ts, {}, 1) == Some(out);
    assert out[1..] == [Plain(' '), Dollar("1")] && out[1..][1..] == [Dollar("1")] && [Dollar("1")][1..] == [];
    assert Unlex([Dollar("1")]) == "$1" && Unlex(out[1..]) == " $1" && Unlex(out) == "$1 $1";
    assert Fixed(ts, 0) == {} && Fixed(ts, 1) == {} && Fixed(ts, 2) == {};
    assert Bares(ts, 1) == 1 && Bares(ts, 2) == 1 && FreeUpTo(1, {}) == 1;
  }
}
