/** Chunk ids as text: the client's String(chunkId), the node's atoi and the "%d" in a chunk's path. */
module Text {

  function DigitChar(d: nat): char
    requires d < 10
  {
    '0' + d as char
  }

  function Digits(n: nat): string {
    if n < 10 then [DigitChar(n)] else Digits(n / 10) + [DigitChar(n % 10)]
  }

  function Decimal(n: int): string {
    if n < 0 then "-" + Digits(-n) else Digits(n)
  }

  predicate IsDigit(c: char) {
    '0' <= c <= '9'
  }

  predicate IsSpace(c: char) {
    c == ' ' || 9 <= c as int <= 13
  }

  /** atoi's digit loop: stops at the first character that is not a digit. */
  function AtoiDigits(s: string, value: nat): nat {
    if s == [] || !IsDigit(s[0]) then value
    else AtoiDigits(s[1..], value * 10 + (s[0] as int - '0' as int))
  }

  function Atoi(s: string): int
    decreases |s|
  {
    if s == [] then 0
    else if IsSpace(s[0]) then Atoi(s[1..])
    else if s[0] == '-' then 0 - AtoiDigits(s[1..], 0) as int
    else if s[0] == '+' then AtoiDigits(s[1..], 0)
    else AtoiDigits(s, 0)
  }

  lemma {:induction false} DigitsReadBack(n: nat, rest: string)
    ensures |Digits(n)| > 0 && IsDigit(Digits(n)[0])
    ensures AtoiDigits(Digits(n) + rest, 0) == AtoiDigits(rest, n)
  {
    if n < 10 {
      assert Digits(n) + rest == [DigitChar(n)] + rest;
      assert (Digits(n) + rest)[1..] == rest;
    } else {
      var tail := [DigitChar(n % 10)] + rest;
      assert Digits(n) + rest == Digits(n / 10) + tail;
      DigitsReadBack(n / 10, tail);
      assert tail[1..] == rest;
    }
  }

  /** The id a client writes into X-Chunk-ID, or a node into a path, reads back as itself. */
  lemma AtoiInvertsDecimal(n: int)
    ensures Atoi(Decimal(n)) == n
  {
    var m: nat := if n < 0 then -n else n;
    DigitsReadBack(m, []);
    assert Digits(m) + [] == Digits(m);
    assert AtoiDigits([], m) == m;
    if n < 0 {
      assert Decimal(n)[1..] == Digits(m);
    }
  }

  // What the two formats are, in decimal

  /** The value of a digit string, from its last digit up. */
  function Positional(s: string): int {
    if s == [] then 0 else 10 * Positional(s[..|s| - 1]) + (s[|s| - 1] as int - '0' as int)
  }

  predicate AllDigits(s: string) {
    forall i :: 0 <= i < |s| ==> '0' <= s[i] <= '9'
  }

  lemma {:induction false} DigitsAreRead(s: string, rest: string)
    requires AllDigits(s) && (rest == [] || !('0' <= rest[0] <= '9'))
    ensures Positional(s) >= 0 && AtoiDigits(s + rest, 0) == Positional(s)
    decreases |s|
  {
    if s == [] {
      assert s + rest == rest;
    } else {
      var init, last := s[..|s| - 1], [s[|s| - 1]];
      DigitsAreRead(init, []);
      assert init + [] == init && s == init + last;
      DigitsCompose(init, last + rest, 0);
      assert s + rest == init + (last + rest) && (last + rest)[1..] == rest;
    }
  }

  lemma {:induction false} DigitsCompose(s: string, rest: string, value: nat)
    requires AllDigits(s)
    ensures AtoiDigits(s + rest, value) == AtoiDigits(rest, AtoiDigits(s, value))
    decreases |s|
  {
    if s == [] {
      assert s + rest == rest;
    } else {
      assert (s + rest)[1..] == s[1..] + rest;
      DigitsCompose(s[1..], rest, value * 10 + (s[0] as int - '0' as int));
    }
  }

  lemma AtoiReadsSigned(sign: string, digits: string, rest: string)
    requires sign in {"", "+", "-"} && AllDigits(digits) && (rest == [] || !('0' <= rest[0] <= '9'))
    requires sign == "" && digits == "" && rest != [] ==>
      rest[0] != '+' && rest[0] != '-' && rest[0] != ' ' && !(9 <= rest[0] as int <= 13)
    ensures Atoi(sign + digits + rest) == if sign == "-" then -Positional(digits) else Positional(digits)
  {
    hide AtoiDigits;
    DigitsAreRead(digits, rest);
    if sign == "" {
      assert sign + digits + rest == digits + rest;
    } else {
      assert (sign + digits + rest)[0] == sign[0] && (sign + digits + rest)[1..] == digits + rest;
    }
  }

  /** atoi skips white space, takes one sign, and reads decimal digits up to the first other character. */
  lemma {:induction false} AtoiReads(spaces: string, sign: string, digits: string, rest: string)
    requires forall i :: 0 <= i < |spaces| ==> spaces[i] in " \t\n\r" || spaces[i] as int in {11, 12}
    requires sign in {"", "+", "-"} && AllDigits(digits) && (rest == [] || !('0' <= rest[0] <= '9'))
    requires sign == "" && digits == "" && rest != [] ==>
      rest[0] != '+' && rest[0] != '-' && rest[0] != ' ' && !(9 <= rest[0] as int <= 13)
    ensures Atoi(spaces + sign + digits + rest) == if sign == "-" then -Positional(digits) else Positional(digits)
    decreases |spaces|
  {
    hide AtoiDigits, Positional;
    if spaces == [] {
      AtoiReadsSigned(sign, digits, rest);
      assert spaces + sign + digits + rest == sign + digits + rest;
    } else {
      var s := spaces + sign + digits + rest;
      assert s[0] == spaces[0] && s[1..] == spaces[1..] + sign + digits + rest;
      AtoiReads(spaces[1..], sign, digits, rest);
    }
  }

  lemma {:induction false} DigitsAre(n: nat)
    ensures Digits(n) != [] && AllDigits(Digits(n)) && Positional(Digits(n)) == n
    ensures n > 0 ==> Digits(n)[0] != '0'
  {
    if n >= 10 {
      DigitsAre(n / 10);
      assert Digits(n)[..|Digits(n)| - 1] == Digits(n / 10);
    } else {
      assert Digits(n)[..0] == [];
    }
  }

  /** Decimal text is what "%d" and String() print: a minus sign if negative, then digits without leading zeros. */
  lemma DecimalIs(n: int)
    ensures var (s, m) := (Decimal(n), if n < 0 then -n else n);
      var digits := if n < 0 && s != [] then s[1..] else s;
      && (n < 0 ==> s != [] && s[0] == '-')
      && digits != [] && AllDigits(digits) && Positional(digits) == m
      && (digits[0] == '0' ==> n == 0 && digits == "0")
  {
    var m: nat := if n < 0 then -n else n;
    DigitsAre(m);
    if n < 0 {
      assert Decimal(n)[1..] == Digits(m);
    }
  }
}
