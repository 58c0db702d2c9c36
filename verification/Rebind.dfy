/**
 * The placeholder rewriter of internal/database/rebind.go.
 *
 * A query is a sequence of bytes.  Lex is the independent reading of a query
 * (literals, `?` and `$` markers, other bytes); Rebind is the two-pass scanner.
 */
module Rebind {
  import opened Common

  datatype Token =
    | Lit(text: string)      // bytes of a single-quoted literal, its quotes included
    | Plain(c: char)         // any other byte outside literals
    | Dollar(digits: string) // `$` and the maximal digit run after it
    | Ask(digits: string)    // `?` and the maximal digit run after it; "" is a bare marker

  // ---------- reading a query ----------

  /** Index just past the digit run that starts at i. */
  function DigitEnd(q: string, i: nat): (j: nat)
    requires i <= |q|
    ensures i <= j <= |q|
    decreases |q| - i
  {
    if i < |q| && IsDigit(q[i]) then DigitEnd(q, i + 1) else i
  }

  lemma DigitEndIsEnd(q: string, i: nat)
    requires i <= |q|
    ensures var j := DigitEnd(q, i);
            (j < |q| ==> !IsDigit(q[j])) && forall k | i <= k < j :: IsDigit(q[k])
    decreases |q| - i
  {
  }

  /** The token at i, the index after it, and whether a literal is open there. */
  function Head(q: string, i: nat, inStr: bool): (h: (Token, nat, bool))
    requires i < |q|
    ensures i < h.1 <= |q|
  {
    if inStr then
      if q[i] != '\'' then (Lit([q[i]]), i + 1, true)
      else if i + 1 < |q| && q[i + 1] == '\'' then (Lit("''"), i + 2, true)
      else (Lit("'"), i + 1, false)
    else if q[i] == '\'' then (Lit("'"), i + 1, true)
    else if q[i] == '?' then (Ask(q[i + 1..DigitEnd(q, i + 1)]), DigitEnd(q, i + 1), false)
    else if q[i] == '$' then (Dollar(q[i + 1..DigitEnd(q, i + 1)]), DigitEnd(q, i + 1), false)
    else (Plain(q[i]), i + 1, false)
  }

  function Lex(q: string, i: nat, inStr: bool): seq<Token>
    requires i <= |q|
    decreases |q| - i
  {
    if i == |q| then []
    else
      var (t, j, b) := Head(q, i, inStr);
      [t] + Lex(q, j, b)
  }

  function Tokens(q: string): seq<Token> { Lex(q, 0, false) }

  function Spell(t: Token): string {
    match t
    case Lit(text) => text
    case Plain(c) => [c]
    case Dollar(d) => "$" + d
    case Ask(d) => "?" + d
  }

  function Unlex(ts: seq<Token>): string {
    if ts == [] then "" else Spell(ts[0]) + Unlex(ts[1..])
  }

  /** The number of a `$` or `?` token; 0 when it carries no digits. */
  function Num(t: Token): nat {
    if t.Dollar? || t.Ask? then Value(t.digits) else 0
  }

  predicate Bare(t: Token) { t.Ask? && t.digits == "" }
  predicate Explicit(t: Token) { t.Ask? && t.digits != "" }

  function ClaimOf(t: Token): set<nat> {
    if t.Dollar? && Num(t) >= 1 then {Num(t)} else {}
  }

  /** Every positive N written `$N` outside literals. */
  function Claims(ts: seq<Token>): set<nat> {
    if ts == [] then {} else ClaimOf(ts[0]) + Claims(ts[1..])
  }

  // ---------- the numbering the scanner performs ----------

  /** Least number from `next` upwards that is not in use. */
  function NextFree(used: set<nat>, next: nat): (k: nat)
    ensures k >= next
    decreases set x | x in used && x >= next
  {
    if next in used then
      assert (set x | x in used && x >= next) == (set x | x in used && x >= next + 1) + {next};
      NextFree(used, next + 1)
    else next
  }

  lemma NextFreeIsLeast(used: set<nat>, next: nat)
    ensures var k := NextFree(used, next);
            k !in used && forall j | next <= j < k :: j in used
    decreases set x | x in used && x >= next
  {
    if next in used {
      assert (set x | x in used && x >= next) == (set x | x in used && x >= next + 1) + {next};
    }
  }

  /** The second scan over tokens: None is the `?0` error. */
  function Number(ts: seq<Token>, used: set<nat>, next: nat): (out: Option<seq<Token>>)
    ensures out.Some? ==> |out.value| == |ts|
  {
    if ts == [] then Some([])
    else if Bare(ts[0]) then
      var k := NextFree(used, next);
      Prepend(Dollar(Decimal(k)), Number(ts[1..], used + {k}, k + 1))
    else if Explicit(ts[0]) then
      if Num(ts[0]) < 1 then None
      else Prepend(Dollar(Decimal(Num(ts[0]))), Number(ts[1..], used + {Num(ts[0])}, next))
    else Prepend(ts[0], Number(ts[1..], used, next))
  }

  function Prepend(t: Token, rest: Option<seq<Token>>): Option<seq<Token>> {
    if rest.None? then None else Some([t] + rest.value)
  }

  function Rebound(q: string): Option<string> {
    var out := Number(Tokens(q), Claims(Tokens(q)), 1);
    if out.None? then None else Some(Unlex(out.value))
  }

  // ---------- the scanner itself ----------

  lemma ClaimsHead(q: string, i: nat, inStr: bool)
    requires i < |q|
    ensures var (t, j, b) := Head(q, i, inStr);
            Claims(Lex(q, i, inStr)) == ClaimOf(t) + Claims(Lex(q, j, b))
  {
    var (t, j, b) := Head(q, i, inStr);
    assert Lex(q, i, inStr)[1..] == Lex(q, j, b);
  }

  /** Digits that follow `$` or `?` are re-read one by one by the first scan; they claim nothing. */
  lemma {:induction false} DigitsClaimNothing(q: string, i: nat)
    requires i <= |q|
    ensures Claims(Lex(q, i, false)) == Claims(Lex(q, DigitEnd(q, i), false))
    decreases |q| - i
  {
    if i < |q| && IsDigit(q[i]) {
      DigitsClaimNothing(q, i + 1);
      ClaimsHead(q, i, false);
    }
  }

  /** A byte outside literals that opens none: digits after a `$` or `?` will be read as ordinary bytes. */
  lemma ClaimsByte(q: string, i: nat)
    requires i < |q| && q[i] != '\''
    ensures Claims(Lex(q, i, false)) == ClaimOf(Head(q, i, false).0) + Claims(Lex(q, i + 1, false))
  {
    ClaimsHead(q, i, false);
    DigitsClaimNothing(q, i + 1);
  }

  method ScanDigits(q: string, start: nat) returns (j: nat, num: nat)
    requires start <= |q|
    ensures j == DigitEnd(q, start) && num == Value(q[start..j])
  {
    j, num := start, 0;
    while j < |q| && IsDigit(q[j])
      invariant start <= j <= |q|
      invariant num == Value(q[start..j])
      invariant DigitEnd(q, j) == DigitEnd(q, start)
    {
      assert q[start..j + 1][..j - start] == q[start..j];
      num := num * 10 + DigitValue(q[j]);
      j := j + 1;
    }
  }

  /** The first scan at byte i, `used` claimed so far, finishes with the set `goal`. */
  ghost predicate Collected(goal: set<nat>, q: string, i: nat, inStr: bool, used: set<nat>)
    requires i <= |q|
  {
    goal == used + Claims(Lex(q, i, inStr))
  }

  lemma CollectHead(goal: set<nat>, q: string, i: nat, inStr: bool, used: set<nat>)
    requires i < |q| && (inStr || q[i] == '\'') && Collected(goal, q, i, inStr, used)
    ensures Collected(goal, q, Head(q, i, inStr).1, Head(q, i, inStr).2, used)
  {
    ClaimsHead(q, i, inStr);
  }

  /** A byte inside a literal; a doubled quote is one token. */
  lemma CollectInLiteral(goal: set<nat>, q: string, i: nat, used: set<nat>)
    requires i < |q| && Collected(goal, q, i, true, used)
    ensures if q[i] == '\'' && i + 1 < |q| && q[i + 1] == '\'' then Collected(goal, q, i + 2, true, used)
            else Collected(goal, q, i + 1, q[i] != '\'', used)
  {
    CollectHead(goal, q, i, true, used);
  }

  /** A byte outside literals that opens none. */
  lemma {:induction false} CollectByte(goal: set<nat>, q: string, i: nat, used: set<nat>)
    requires i < |q| && q[i] != '\'' && Collected(goal, q, i, false, used)
    ensures var j := DigitEnd(q, i + 1);
            var num := Value(q[i + 1..j]);
            Collected(goal, q, i + 1, false, if q[i] == '$' && j > i + 1 && num >= 1 then used + {num} else used)
  {
    ClaimsByte(q, i);
    assert used + {} == used;
    var j := DigitEnd(q, i + 1);
    if j == i + 1 { assert q[i + 1..j] == "" && Value("") == 0; }
  }

  method PreClaim(q: string) returns (used: set<nat>)
    ensures used == Claims(Tokens(q))
  {
    ghost var goal := Claims(Tokens(q));
    used := {};
    var inStr, i := false, 0;
    while i < |q|
      invariant 0 <= i <= |q|
      invariant Collected(goal, q, i, inStr, used)
    {
      var c := q[i];
      if inStr {
        CollectInLiteral(goal, q, i, used);
        if c == '\'' {
          if i + 1 < |q| && q[i + 1] == '\'' {
            i := i + 1;
          } else {
            inStr := false;
          }
        }
      } else if c == '\'' {
        CollectHead(goal, q, i, false, used);
        inStr := true;
      } else {
        CollectByte(goal, q, i, used);
        if c == '$' {
          var j, num := ScanDigits(q, i + 1);
          if j > i + 1 && num >= 1 {
            used := used + {num};
          }
        }
      }
      i := i + 1;
    }
  }

  /** The text of a finished scan whose first part is already written. */
  function Glue(out: string, rest: Option<seq<Token>>): Option<string> {
    if rest.None? then None else Some(out + Unlex(rest.value))
  }

  lemma GluePrepend(out: string, t: Token, rest: Option<seq<Token>>)
    ensures Glue(out, Prepend(t, rest)) == Glue(out + Spell(t), rest)
  {
    if rest.Some? {
      assert ([t] + rest.value)[1..] == rest.value;
      assert out + (Spell(t) + Unlex(rest.value)) == out + Spell(t) + Unlex(rest.value);
    }
  }

  lemma GlueDollar(out: string, k: nat, rest: Option<seq<Token>>)
    ensures Glue(out, Prepend(Dollar(Decimal(k)), rest)) == Glue(out + "$" + Decimal(k), rest)
  {
    GluePrepend(out, Dollar(Decimal(k)), rest);
    assert out + ("$" + Decimal(k)) == out + "$" + Decimal(k);
  }

  /** How the second scan treats the first token of what is left. */
  lemma NumberHead(q: string, i: nat, inStr: bool, used: set<nat>, next: nat)
    requires i < |q|
    ensures var (t, j, b) := Head(q, i, inStr);
            var rest := Lex(q, j, b);
            Number(Lex(q, i, inStr), used, next) ==
              if Bare(t) then
                var k := NextFree(used, next);
                Prepend(Dollar(Decimal(k)), Number(rest, used + {k}, k + 1))
              else if Explicit(t) then
                if Num(t) < 1 then None
                else Prepend(Dollar(Decimal(Num(t))), Number(rest, used + {Num(t)}, next))
              else Prepend(t, Number(rest, used, next))
  {
    var (t, j, b) := Head(q, i, inStr);
    assert ([t] + Lex(q, j, b))[1..] == Lex(q, j, b);
  }

  /** The second scan at byte i, `out` written so far, finishes with the result `goal`. */
  ghost predicate OnTrack(goal: Option<string>, q: string, i: nat, inStr: bool, out: string, used: set<nat>, next: nat)
    requires i <= |q|
  {
    goal == Glue(out, Number(Lex(q, i, inStr), used, next))
  }

  lemma OnTrackStart(q: string)
    ensures OnTrack(Rebound(q), q, 0, false, "", Claims(Tokens(q)), 1)
  {
    var rest := Number(Tokens(q), Claims(Tokens(q)), 1);
    if rest.Some? { assert "" + Unlex(rest.value) == Unlex(rest.value); }
  }

  lemma OnTrackEnd(goal: Option<string>, q: string, inStr: bool, out: string, used: set<nat>, next: nat)
    requires OnTrack(goal, q, |q|, inStr, out, used, next)
    ensures goal == Some(out)
  {
    assert out + "" == out;
  }

  lemma CopyPlain(q: string, i: nat, out: string, used: set<nat>, next: nat)
    requires i < |q| && IsDigit(q[i])
    ensures Glue(out, Number(Lex(q, i, false), used, next)) ==
            Glue(out + [q[i]], Number(Lex(q, i + 1, false), used, next))
  {
    NumberHead(q, i, false, used, next);
    GluePrepend(out, Plain(q[i]), Number(Lex(q, i + 1, false), used, next));
  }

  /** Digits after a copied `$` are copied byte by byte. */
  lemma {:induction false} DigitsCopied(q: string, i: nat, j: nat, out: string, used: set<nat>, next: nat)
    requires i <= |q| && j == DigitEnd(q, i)
    ensures Glue(out, Number(Lex(q, i, false), used, next)) ==
            Glue(out + q[i..j], Number(Lex(q, j, false), used, next))
    decreases j - i
  {
    if i == j {
      assert q[i..j] == "" && out + "" == out;
    } else {
      CopyPlain(q, i, out, used, next);
      DigitsCopied(q, i + 1, j, out + [q[i]], used, next);
      JoinSlice(out, q, i, j);
    }
  }

  lemma JoinSlice(out: string, q: string, i: nat, j: nat)
    requires i < j <= |q|
    ensures out + [q[i]] + q[i + 1..j] == out + q[i..j]
  {
  }

  /** A byte the scanner copies unchanged, `$` included. */
  lemma CopyByte(goal: Option<string>, q: string, i: nat, out: string, used: set<nat>, next: nat)
    requires i < |q| && q[i] != '?' && q[i] != '\''
    requires OnTrack(goal, q, i, false, out, used, next)
    ensures OnTrack(goal, q, i + 1, false, out + [q[i]], used, next)
  {
    NumberHead(q, i, false, used, next);
    var (t, j, b) := Head(q, i, false);
    GluePrepend(out, t, Number(Lex(q, j, b), used, next));
    if q[i] == '$' {
      DigitsCopied(q, i + 1, j, out + "$", used, next);
      assert out + "$" + t.digits == out + Spell(t);
    }
  }

  lemma CopyQuote(goal: Option<string>, q: string, i: nat, inStr: bool, out: string, used: set<nat>, next: nat)
    requires i < |q| && (inStr || q[i] == '\'')
    requires OnTrack(goal, q, i, inStr, out, used, next)
    ensures var (t, j, b) := Head(q, i, inStr);
            OnTrack(goal, q, j, b, out + Spell(t), used, next)
  {
    NumberHead(q, i, inStr, used, next);
    var (t, j, b) := Head(q, i, inStr);
    GluePrepend(out, t, Number(Lex(q, j, b), used, next));
  }

  lemma {:induction false} RewriteBare(goal: Option<string>, q: string, i: nat, out: string, used: set<nat>, next: nat)
    requires i < |q| && q[i] == '?' && DigitEnd(q, i + 1) == i + 1
    requires OnTrack(goal, q, i, false, out, used, next)
    ensures var k := NextFree(used, next);
            OnTrack(goal, q, i + 1, false, out + "$" + Decimal(k), used + {k}, k + 1)
  {
    assert q[i + 1..i + 1] == "";
    NumberHead(q, i, false, used, next);
    var k := NextFree(used, next);
    GlueDollar(out, k, Number(Lex(q, i + 1, false), used + {k}, k + 1));
  }

  lemma RewriteExplicit(goal: Option<string>, q: string, i: nat, out: string, used: set<nat>, next: nat)
    requires i < |q| && q[i] == '?' && DigitEnd(q, i + 1) > i + 1
    requires OnTrack(goal, q, i, false, out, used, next)
    ensures var j := DigitEnd(q, i + 1);
            var num := Value(q[i + 1..j]);
            if num < 1 then goal == None
            else OnTrack(goal, q, j, false, out + "$" + Decimal(num), used + {num}, next)
  {
    var j := DigitEnd(q, i + 1);
    var num := Value(q[i + 1..j]);
    NumberHead(q, i, false, used, next);
    if num >= 1 {
      GlueDollar(out, num, Number(Lex(q, j, false), used + {num}, next));
    }
  }

  /** Either kind of marker, with the number the scanner settles on. */
  lemma {:induction false} RewriteMarker(goal: Option<string>, q: string, i: nat, j: nat, num: nat, out: string,
                                          used: set<nat>, next: nat, next': nat)
    requires i < |q| && q[i] == '?' && next >= 1 && OnTrack(goal, q, i, false, out, used, next)
    requires j == DigitEnd(q, i + 1)
    requires if j == i + 1 then num == NextFree(used, next) && next' == num + 1
             else num == Value(q[i + 1..j]) && next' == next
    ensures if num < 1 then goal == None
            else OnTrack(goal, q, j, false, out + "$" + Decimal(num), used + {num}, next')
  {
    if j == i + 1 {
      RewriteBare(goal, q, i, out, used, next);
    } else {
      RewriteExplicit(goal, q, i, out, used, next);
    }
  }

  method SkipUsed(used: set<nat>, start: nat) returns (next: nat)
    ensures next == NextFree(used, start)
  {
    next := start;
    while next in used
      invariant next >= start && NextFree(used, next) == NextFree(used, start)
      decreases set x | x in used && x >= next
    {
      assert (set x | x in used && x >= next) == (set x | x in used && x >= next + 1) + {next};
      next := next + 1;
    }
  }

  /** One byte (or one escaped quote) inside a literal. */
  method CopyInLiteral(ghost goal: Option<string>, q: string, i: nat, out: string, ghost used: set<nat>, ghost next: nat)
    returns (i': nat, inStr: bool, out': string)
    requires i < |q| && OnTrack(goal, q, i, true, out, used, next)
    ensures i < i' <= |q| && out' == out + q[i..i'] && OnTrack(goal, q, i', inStr, out', used, next)
  {
    CopyQuote(goal, q, i, true, out, used, next);
    i', inStr, out' := i, true, out + [q[i]];
    if q[i] == '\'' {
      if i + 1 < |q| && q[i + 1] == '\'' {
        out' := out' + "'";
        assert q[i..i + 2] == "''" && out' == out + "''";
        i' := i' + 1;
      } else {
        inStr := false;
      }
    }
    i' := i' + 1;
  }

  /** One `?` marker; ok is false on an explicit zero. */
  method WriteMarker(ghost goal: Option<string>, q: string, i: nat, out: string, used: set<nat>, next: nat)
    returns (ok: bool, j: nat, out': string, used': set<nat>, next': nat)
    requires i < |q| && q[i] == '?' && next >= 1 && OnTrack(goal, q, i, false, out, used, next)
    ensures i < j <= |q| && next' >= 1
    ensures if ok then OnTrack(goal, q, j, false, out', used', next') else goal == None
  {
    var num;
    j, num := ScanDigits(q, i + 1);
    ok, out', used', next' := true, out, used, next;
    if j == i + 1 {
      num := SkipUsed(used, next);
      next' := num + 1;
    }
    RewriteMarker(goal, q, i, j, num, out, used, next, next');
    if num < 1 {
      ok := false;
      return;
    }
    used' := used + {num};
    out' := out + "$" + Decimal(num);
  }

  /** The whole rewriter: None stands for the invalid-placeholder error. */
  method Rebind(query: string) returns (r: Option<string>)
    ensures r == Rebound(query)
  {
    ghost var goal := Rebound(query);
    var used := PreClaim(query);
    var next, np, out, inStr, i := 1, 0, "", false, 0;
    OnTrackStart(query);
    while i < |query|
      invariant 0 <= i <= |query| && next >= 1
      invariant OnTrack(goal, query, i, inStr, out, used, next)
      invariant np == 0 ==> out == query[..i]
    {
      var c := query[i];
      if inStr {
        i, inStr, out := CopyInLiteral(goal, query, i, out, used, next);
      } else if c == '?' {
        var ok;
        ok, i, out, used, next := WriteMarker(goal, query, i, out, used, next);
        if !ok {
          return None;
        }
        np := np + 1;
      } else {
        if c == '\'' {
          CopyQuote(goal, query, i, false, out, used, next);
          inStr := true;
        } else {
          CopyByte(goal, query, i, out, used, next);
        }
        out := out + [c];
        i := i + 1;
      }
    }
    OnTrackEnd(goal, query, inStr, out, used, next);
    assert query[..i] == query;
    if np == 0 {
      return Some(query);
    }
    return Some(out);
  }
}
