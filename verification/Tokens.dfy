/** auth/random_token_source.go and auth/one_time_token_authenticator.go: drawing, issuing and redeeming tokens. */
module Tokens {

  /** What rand.Source.Int63 may return. */
  type Int63 = x: int | 0 <= x < 0x8000_0000_0000_0000

  /** The 64 characters a token is made of: u and U stand among them twice. */
  const CHARS: Chars := LOWER + UPPER + DIGITS
  const LOWER := "abcdefghikjlmnopqurstuvwxyz"
  const UPPER := "ABCDEFGHIKJLMNOPQURSTUVWXYZ"
  const DIGITS := "0123456789"

  /** The characters a random number yields before the next one is drawn: 63 / 6. */
  const PER_DRAW := 10

  /** x shifted right by j times 6 bits */
  function Shifted(x: nat, j: nat): nat {
    if j == 0 then x else Shifted(x, j - 1) / 64
  }

  /** 64 characters, so that every 6-bit number is the index of one. */
  type Chars = s: string | |s| == 64 witness seq(64, _ => 'a')

  /** Character k of a token, counted from its end, when the numbers at pos and after are drawn for it. */
  function CharFromEnd(chars: Chars, draws: nat -> Int63, pos: nat, k: nat): char {
    chars[Shifted(draws(pos + k / PER_DRAW), k % PER_DRAW) % 64]
  }

  /** The token of n characters made from the numbers at pos and after: the first slice gives the last character. */
  function TokenAt(chars: Chars, draws: nat -> Int63, pos: nat, n: nat): (token: string)
    ensures |token| == n
  {
    seq(n, i requires 0 <= i < n => CharFromEnd(chars, draws, pos, n - 1 - i))
  }

  /** What Generate(n) returns when the source has returned pos numbers so far. */
  function TokenOf(draws: nat -> Int63, pos: nat, n: int): string {
    if n < 1 then "" else TokenAt(CHARS, draws, pos, n)
  }

  /** How many numbers a token of length n takes. */
  function DrawsFor(n: int): nat {
    if n < 1 then 0 else (n + PER_DRAW - 1) / PER_DRAW
  }

  /** Pass 10 * q + j of the loop uses slice j of the number drawn last. */
  lemma SliceOfPass(chars: Chars, draws: nat -> Int63, pos: nat, q: nat, j: nat)
    requires j < PER_DRAW
    ensures CharFromEnd(chars, draws, pos, PER_DRAW * q + j) == chars[Shifted(draws(pos + q), j) % 64]
  {
    var k := PER_DRAW * q + j;
    assert k / PER_DRAW == q && k % PER_DRAW == j;
  }

  class RandomTokenSource {
    /** The numbers the source will ever return, and how many it has returned. */
    const draws: nat -> Int63
    var pos: nat

    constructor (draws: nat -> Int63)
      ensures this.draws == draws && pos == 0
    {
      this.draws, pos := draws, 0;
    }

    method GetRandInt63() returns (x: Int63)
      modifies this
      ensures x == draws(old(pos)) && pos == old(pos) + 1
    {
      x := draws(pos);
      pos := pos + 1;
    }

    method Generate(tokenLen: int) returns (token: string)
      modifies this
      ensures token == TokenOf(draws, old(pos), tokenLen)
      ensures pos == old(pos) + DrawsFor(tokenLen)
    {
      if tokenLen < 1 {
        return "";
      }
      token := GenerateFrom(CHARS, tokenLen);
    }

    /** The loop of Generate: each pass fills one character from the back, with a new number every ten passes. */
    method GenerateFrom(chars: Chars, tokenLen: nat) returns (token: string)
      requires tokenLen >= 1
      modifies this
      ensures token == TokenAt(chars, draws, old(pos), tokenLen)
      ensures pos == old(pos) + DrawsFor(tokenLen)
    {
      var buffer := new char[tokenLen](_ => 'a');
      var i := tokenLen;
      var cache: nat := GetRandInt63();
      var remain := PER_DRAW;
      ghost var first, q, used := old(pos), 0, 0;
      while i > 0
        invariant 0 <= i <= tokenLen && 0 <= remain == PER_DRAW - used
        invariant tokenLen - i == PER_DRAW * q + used && (i < tokenLen ==> used > 0)
        invariant pos == first + q + 1 && cache == Shifted(draws(first + q), used)
        invariant forall m :: i <= m < tokenLen ==> buffer[m] == CharFromEnd(chars, draws, first, tokenLen - 1 - m)
        decreases i
      {
        if remain == 0 {
          cache := GetRandInt63();
          remain := PER_DRAW;
          q, used := q + 1, 0;
        }
        SliceOfPass(chars, draws, first, q, used);
        var idx := cache % 64;
        if idx < |chars| {
          buffer[i - 1] := chars[idx];
          i := i - 1;
        }
        cache := cache / 64;
        remain := remain - 1;
        used := used + 1;
      }
      token := buffer[..];
    }
  }

  // ---- issuing and redeeming ----

  const MAX_ATTEMPTS := 0x10_0000

  /** Attempt k of IssueToken, made when the source has returned pos numbers before the first one. */
  function Attempt(draws: nat -> Int63, pos: nat, tokenLen: int, k: nat): string {
    TokenOf(draws, pos + k * DrawsFor(tokenLen), tokenLen)
  }

  /** k is the first attempt that is not in use. */
  ghost predicate FirstFree(draws: nat -> Int63, pos: nat, tokenLen: int, tokens: set<string>, k: nat) {
    && Attempt(draws, pos, tokenLen, k) !in tokens
    && forall j: nat :: j < k ==> Attempt(draws, pos, tokenLen, j) in tokens
  }

  lemma NextMultiple(k: nat, d: nat)
    ensures (k + 1) * d == k * d + d
  {
  }

  class OneTimeTokenAuthenticator {
    const gen: RandomTokenSource
    var tokens: set<string>
    /** The books: every token ever issued, and every token ever redeemed. */
    ghost var issued: multiset<string>
    ghost var redeemed: multiset<string>

    /** Each token issued has been redeemed or is outstanding, and can be redeemed as often as it was issued. */
    ghost predicate Valid()
      reads this
    {
      && issued == redeemed + multiset(tokens)
      && forall t :: t in tokens ==> Spelled(t)
    }

    constructor (gen: RandomTokenSource)
      ensures Valid() && this.gen == gen && tokens == {} && issued == multiset{} && redeemed == multiset{}
    {
      this.gen := gen;
      tokens, issued, redeemed := {}, multiset{}, multiset{};
    }

    /** Issues the first token drawn that is not outstanding; fails exactly if all 2^20 + 1 attempts are. */
    method IssueToken(tokenLen: int) returns (token: string, ok: bool)
      requires Valid()
      modifies this, gen
      ensures Valid() && redeemed == old(redeemed)
      ensures if ok then tokens == old(tokens) + {token} && issued == old(issued) + multiset{token}
              else token == "" && tokens == old(tokens) && issued == old(issued)
      ensures ok ==> exists k: nat :: k <= 1_048_576 && token == Attempt(gen.draws, old(gen.pos), tokenLen, k)
                                      && FirstFree(gen.draws, old(gen.pos), tokenLen, old(tokens), k)
      ensures !ok ==> forall k: nat :: k <= 1_048_576 ==> Attempt(gen.draws, old(gen.pos), tokenLen, k) in old(tokens)
    {
      ghost var k;
      token, k := DrawUnused(tokenLen);
      if token in tokens {
        return "", false;
      }
      TokenIsSpelled(gen.draws, old(gen.pos) + k * DrawsFor(tokenLen), tokenLen);
      tokens := tokens + {token};
      issued := issued + multiset{token};
      return token, true;
    }

    /** The loop of IssueToken: draws until a token is unused or the attempts are used up. */
    method DrawUnused(tokenLen: int) returns (token: string, ghost k: nat)
      modifies gen
      ensures k <= MAX_ATTEMPTS && token == Attempt(gen.draws, old(gen.pos), tokenLen, k)
      ensures forall j: nat :: j < k ==> Attempt(gen.draws, old(gen.pos), tokenLen, j) in tokens
      ensures token !in tokens || k == MAX_ATTEMPTS
    {
      ghost var pos := gen.pos;
      token := gen.Generate(tokenLen);
      var i: nat := 0;
      while token in tokens && i < MAX_ATTEMPTS
        invariant i <= MAX_ATTEMPTS
        invariant token == Attempt(gen.draws, pos, tokenLen, i)
        invariant gen.pos == pos + (i + 1) * DrawsFor(tokenLen)
        invariant forall j: nat :: j < i ==> Attempt(gen.draws, pos, tokenLen, j) in tokens
      {
        token := gen.Generate(tokenLen);
        NextMultiple(i + 1, DrawsFor(tokenLen));
        i := i + 1;
      }
      k := i;
    }

    /** Accepts a token exactly if it is outstanding, and then never again until it is issued anew. */
    method Authenticate(token: string) returns (ok: bool)
      requires Valid()
      modifies this`tokens, this`redeemed
      ensures Valid() && ok == (token in old(tokens)) && token !in tokens
      ensures tokens == old(tokens) - {token}
      ensures redeemed == if ok then old(redeemed) + multiset{token} else old(redeemed)
    {
      if token !in tokens {
        return false;
      }
      tokens := tokens - {token};
      redeemed := redeemed + multiset{token};
      return true;
    }
  }

  // ---- how many tokens there can be ----

  /** The 62 letters and digits. */
  predicate AlNum(c: char) {
    'a' <= c <= 'z' || 'A' <= c <= 'Z' || '0' <= c <= '9'
  }

  /** s is made of letters and digits. */
  predicate Spelled(s: string) {
    forall i :: 0 <= i < |s| ==> AlNum(s[i])
  }

  lemma LowerAreAlNum(c: char)
    requires c in LOWER
    ensures AlNum(c)
  {
  }

  lemma UpperAreAlNum(c: char)
    requires c in UPPER
    ensures AlNum(c)
  {
  }

  lemma CharsAreAlNum(c: char)
    ensures c in CHARS ==> AlNum(c)
  {
    if c in LOWER {
      LowerAreAlNum(c);
    } else if c in UPPER {
      UpperAreAlNum(c);
    }
  }

  lemma CharIsAlNum(draws: nat -> Int63, pos: nat, k: nat)
    ensures AlNum(CharFromEnd(CHARS, draws, pos, k))
  {
    var i := Shifted(draws(pos + k / PER_DRAW), k % PER_DRAW) % 64;
    assert CHARS[i] in CHARS;
    CharsAreAlNum(CHARS[i]);
  }

  lemma CharFromTheEnd(draws: nat -> Int63, pos: nat, n: int, k: nat)
    requires k < n
    ensures |TokenOf(draws, pos, n)| == n && TokenOf(draws, pos, n)[n - 1 - k] == CharFromEnd(CHARS, draws, pos, k)
  {
  }

  lemma TokenIsSpelled(draws: nat -> Int63, pos: nat, n: int)
    ensures Spelled(TokenOf(draws, pos, n))
  {
    var token := TokenOf(draws, pos, n);
    forall i | 0 <= i < |token|
      ensures AlNum(token[i])
    {
      CharIsAlNum(draws, pos, n - 1 - i);
      CharFromTheEnd(draws, pos, n, n - 1 - i);
    }
  }

  function Power(b: nat, n: nat): nat {
    if n == 0 then 1 else b * Power(b, n - 1)
  }

  /** The letters and digits in a row. */
  function Letters(): (s: string)
    ensures |s| == 62
  {
    Row('a', 26) + Row('A', 26) + Row('0', 10)
  }

  /** The n characters from c on. */
  function Row(c: char, n: nat): (s: string)
    requires c as int + n <= 0x80
    ensures |s| == n && forall i :: 0 <= i < n ==> s[i] as int == c as int + i
  {
    seq(n, i requires 0 <= i < n => (c as int + i) as char)
  }

  lemma RowContains(c: char, n: nat, d: char)
    requires c as int + n <= 0x80 && c as int <= d as int < c as int + n
    ensures d in Row(c, n)
  {
    assert Row(c, n)[d as int - c as int] == d;
  }

  lemma LettersAreComplete(c: char)
    requires AlNum(c)
    ensures c in Letters()
  {
    if 'a' <= c <= 'z' {
      RowContains('a', 26, c);
    } else if 'A' <= c <= 'Z' {
      RowContains('A', 26, c);
    } else {
      RowContains('0', 10, c);
    }
  }

  function Tails(tokens: set<string>): set<string> {
    set t | t in tokens && t != "" :: t[1..]
  }

  lemma {:induction false} TailsOfSameBeginning(tokens: set<string>, c: char)
    requires forall t :: t in tokens ==> t != "" && t[0] == c
    ensures |Tails(tokens)| == |tokens|
  {
    if tokens != {} {
      var t :| t in tokens;
      var rest := tokens - {t};
      TailsOfSameBeginning(rest, c);
      assert Tails(tokens) == Tails(rest) + {t[1..]};
      assert t[1..] !in Tails(rest) by {
        assert t == [c] + t[1..];
        assert forall u :: u in rest ==> u == [c] + u[1..];
      }
    }
  }

  lemma TailIsSpelled(t: string)
    requires t != "" && Spelled(t)
    ensures Spelled(t[1..])
  {
  }

  /** There are at most 62 to the power n tokens of length n. */
  lemma {:induction false} AtMost62ToTheN(tokens: set<string>, n: nat)
    requires forall t :: t in tokens ==> |t| == n && Spelled(t)
    ensures |tokens| <= Power(62, n)
    decreases n, 63
  {
    if n == 0 {
      assert tokens <= {""};
      SubsetIsSmaller(tokens, {""});
    } else {
      forall t | t in tokens
        ensures t[0] in Letters()
      {
        LettersAreComplete(t[0]);
      }
      CountByBeginning(tokens, n - 1, Letters());
    }
  }

  lemma {:induction false} CountByBeginning(tokens: set<string>, n: nat, letters: string)
    requires |letters| <= 62
    requires forall t :: t in tokens ==> |t| == n + 1 && Spelled(t) && t[0] in letters
    ensures |tokens| <= |letters| * Power(62, n)
    decreases n + 1, |letters|
  {
    if letters == "" {
      assert tokens == {};
    } else {
      var c, others := letters[0], letters[1..];
      var first := set t | t in tokens && t[0] == c;
      var rest := set t | t in tokens && t[0] != c;
      assert tokens == first + rest && first !! rest;
      assert letters == [c] + others;
      CountSameBeginning(first, n, c);
      CountByBeginning(rest, n, others);
      Distribute(|others|, Power(62, n));
    }
  }

  lemma {:induction false} CountSameBeginning(tokens: set<string>, n: nat, c: char)
    requires forall t :: t in tokens ==> |t| == n + 1 && Spelled(t) && t[0] == c
    ensures |tokens| <= Power(62, n)
    decreases n + 1, 0
  {
    TailsOfSameBeginning(tokens, c);
    forall t | t in tokens
      ensures Spelled(t[1..])
    {
      TailIsSpelled(t);
    }
    AtMost62ToTheN(Tails(tokens), n);
  }

  lemma Distribute(a: nat, b: nat)
    ensures (1 + a) * b == b + a * b
  {
  }

  lemma {:induction false} SubsetIsSmaller(a: set<string>, b: set<string>)
    requires a <= b
    ensures |a| <= |b|
  {
    assert b == a + (b - a);
  }

  /** So however many tokens are issued, no more than 62 to the power n of length n are ever outstanding at a time. */
  lemma OutstandingBound(authenticator: OneTimeTokenAuthenticator, n: nat)
    requires authenticator.Valid()
    ensures |(set t | t in authenticator.tokens && |t| == n)| <= Power(62, n)
  {
    var tokens := set t | t in authenticator.tokens && |t| == n;
    AtMost62ToTheN(tokens, n);
  }

  // ---- which characters a token has ----

  lemma Regroup(high: nat, digit: nat, power: nat, low: nat)
    requires digit < 64 && low < power
    ensures (64 * high + digit) * power + low == high * (64 * power) + (digit * power + low)
    ensures digit * power + low < 64 * power
  {
    assert digit * power <= 63 * power;
  }

  /** Shifting takes away the last j digits in base 64. */
  lemma {:induction false} ShiftedTakesDigits(x: nat, j: nat) returns (low: nat)
    ensures low < Power(64, j) && x == Shifted(x, j) * Power(64, j) + low
  {
    if j == 0 {
      low := 0;
    } else {
      low := ShiftedTakesDigits(x, j - 1);
      var digit := Shifted(x, j - 1) % 64;
      Regroup(Shifted(x, j), digit, Power(64, j - 1), low);
      low := digit * Power(64, j - 1) + low;
    }
  }

  /** The characters, in the order of the digits they stand for. */
  const ALPHABET := "abcdefghikjlmnopqurstuvwxyz" + "ABCDEFGHIKJLMNOPQURSTUVWXYZ" + "0123456789"

  lemma CharsAreTheAlphabet()
    ensures CHARS == ALPHABET
  {
  }

  /** Character k of a token, from its end, is the one for digit k mod 10, in base 64, of number k / 10. */
  lemma TokenCharacter(draws: nat -> Int63, pos: nat, n: int, k: nat) returns (high: nat, digit: nat, low: nat)
    requires k < n
    ensures |TokenOf(draws, pos, n)| == n && digit < 64 && low < Power(64, k % 10)
    ensures draws(pos + k / 10) == (64 * high + digit) * Power(64, k % 10) + low
    ensures TokenOf(draws, pos, n)[n - 1 - k] == ALPHABET[digit]
  {
    var x := draws(pos + k / 10);
    low := ShiftedTakesDigits(x, k % 10);
    high, digit := Shifted(x, k % 10) / 64, Shifted(x, k % 10) % 64;
    CharsAreTheAlphabet();
    CharFromTheEnd(draws, pos, n, k);
  }

  /** A number is drawn for every ten characters, and for what remains. */
  lemma DrawsAreEnough(n: int)
    ensures if n < 1 then DrawsFor(n) == 0 else 10 * (DrawsFor(n) - 1) < n <= 10 * DrawsFor(n)
  {
  }
}
