// Diffie-Hellman key agreement (src/common/dh_crypto.c; the calculation of section 2.1.1
// of RFC 2631) and the session key derived from it.
module DhCrypto {
  // C's long long. Arithmetic on this type is verified not to overflow.
  newtype int64 = x: int | -0x8000_0000_0000_0000 <= x < 0x8000_0000_0000_0000

  const DH_PRIME: int64 := 2147483647
  const DH_GENERATOR: int64 := 16807
  const KEY_BUFFER: nat := 64

  // ---------------------------------------------------------------------------
  // Modular exponentiation
  // ---------------------------------------------------------------------------

  function Pow(b: int, e: nat): int {
    if e == 0 then 1 else b * Pow(b, e - 1)
  }

  // C's remainder takes the sign of the dividend.
  function CRem(a: int, m: int): int
    requires m > 0
  {
    if a >= 0 then a % m else -((-a) % m)
  }

  function CRem64(a: int64, m: int64): (r: int64)
    requires m > 0
    ensures r as int == CRem(a as int, m as int) && -m < r < m
  {
    CRem(a as int, m as int) as int64
  }

  lemma CRemIsUnique(a: int, m: int, q: int, r: int)
    requires m > 0 && a == q * m + r && -m < r < m
    requires r == 0 || (r > 0 && a > 0) || (r < 0 && a < 0)
    ensures CRem(a, m) == r
  {
    if a >= 0 {
      QuotientIsUnique(a, m, q, r);
    } else {
      assert (-q) * m == -(q * m);
      QuotientIsUnique(-a, m, -q, -r);
    }
  }

  lemma MulAtLeast(k: int, m: int)
    requires m > 0
    ensures k >= 1 ==> k * m >= m
    ensures k <= -1 ==> k * m <= -m
  {
    if k >= 1 {
      assert (k - 1) * m >= 0;
    } else if k <= -1 {
      assert (-k - 1) * m >= 0;
    }
  }

  lemma QuotientIsUnique(a: int, m: int, q: int, r: int)
    requires m > 0 && a == q * m + r && 0 <= r < m
    ensures a % m == r
  {
    var k := q - a / m;
    assert k * m == q * m - (a / m) * m;
    MulAtLeast(k, m);
  }

  lemma CRemDivides(a: int, m: int) returns (q: int)
    requires m > 0
    ensures a == q * m + CRem(a, m)
    ensures CRem(a, m) == 0 || (CRem(a, m) > 0 && a > 0) || (CRem(a, m) < 0 && a < 0)
    ensures -m < CRem(a, m) < m
  {
    if a >= 0 {
      q := a / m;
    } else {
      q := -((-a) / m);
      assert (-a) == ((-a) / m) * m + (-a) % m;
    }
  }

  lemma DistributeQuotients(x: int, y: int, m: int, q: int, r: int, q': int, r': int)
    requires x == q * m + r && r * y == q' * m + r'
    ensures x * y == (q * y + q') * m + r'
  {
    calc {
      x * y;
      (q * m + r) * y;
      (q * m) * y + r * y;
      (q * y) * m + q' * m + r';
      (q * y + q') * m + r';
    }
  }

  // Reducing a factor first does not change the remainder of the product.
  lemma CRemOfProduct(x: int, y: int, m: int)
    requires m > 0
    ensures CRem(CRem(x, m) * y, m) == CRem(x * y, m)
  {
    var r := CRem(x, m);
    var q := CRemDivides(x, m);
    var q' := CRemDivides(r * y, m);
    var r' := CRem(r * y, m);
    DistributeQuotients(x, y, m, q, r, q', r');
    SignOfProduct(x, r, y);
    CRemIsUnique(x * y, m, q * y + q', r');
  }

  lemma SignOfProduct(x: int, r: int, y: int)
    requires r == 0 || (r > 0 && x > 0) || (r < 0 && x < 0)
    ensures r * y > 0 ==> x * y > 0
    ensures r * y < 0 ==> x * y < 0
  {
    if r * y > 0 {
      assert (x > 0 && y > 0) || (x < 0 && y < 0);
    } else if r * y < 0 {
      assert (x > 0 && y < 0) || (x < 0 && y > 0);
    }
  }

  lemma Regroup(r: int, x: int, p: int)
    ensures r * (x * p) == x * (r * p) == (x * r) * p
  {}

  lemma CRemOfPowerStep(r: int, x: int, p': int, p: int, m: int)
    requires m > 0 && CRem((x * r) * p', m) == CRem((x * r) * p, m)
    ensures CRem(r * (CRem(x, m) * p'), m) == CRem(r * (x * p), m)
  {
    Regroup(r, CRem(x, m), p');
    CRemOfProduct(x, r * p', m);
    Regroup(r, x, p');
    Regroup(r, x, p);
  }

  lemma {:induction false} CRemOfPower(r: int, x: int, e: nat, m: int)
    requires m > 0
    ensures CRem(r * Pow(CRem(x, m), e), m) == CRem(r * Pow(x, e), m)
    decreases e
  {
    if e > 0 {
      CRemOfPower(x * r, x, e - 1, m);
      CRemOfPowerStep(r, x, Pow(CRem(x, m), e - 1), Pow(x, e - 1), m);
    }
  }

  lemma {:induction false} PowOfSquare(b: int, k: nat)
    ensures Pow(b * b, k) == Pow(b, 2 * k)
  {
    if k > 0 {
      PowOfSquare(b, k - 1);
      assert Pow(b, 2 * k) == b * Pow(b, 2 * k - 1) == b * (b * Pow(b, 2 * k - 2));
      assert b * (b * Pow(b, 2 * k - 2)) == (b * b) * Pow(b, 2 * k - 2);
    }
  }

  lemma {:induction false} PowOfSum(b: int, j: nat, k: nat)
    ensures Pow(b, j + k) == Pow(b, j) * Pow(b, k)
  {
    if j > 0 {
      PowOfSum(b, j - 1, k);
      assert b * (Pow(b, j - 1) * Pow(b, k)) == (b * Pow(b, j - 1)) * Pow(b, k);
    }
  }

  lemma {:induction false} PowOfPow(b: int, j: nat, k: nat)
    ensures Pow(Pow(b, j), k) == Pow(b, j * k)
  {
    if k > 0 {
      PowOfPow(b, j, k - 1);
      PowOfSum(b, j, j * (k - 1));
      assert j * k == j + j * (k - 1);
    } else {
      assert j * k == 0;
    }
  }

  // What power_mod computes: the C remainder of the power, 1 for a negative exponent.
  function PowerRem(base: int, exp: int, mod: int): int
    requires mod > 0
  {
    CRem(Pow(base, if exp < 0 then 0 else exp), mod)
  }

  lemma HalfStep(res: int, base: int, exp: nat, mod: int)
    requires mod > 0 && exp > 0
    ensures var res' := if exp % 2 == 1 then CRem(res * base, mod) else res;
            CRem(res' * Pow(CRem(base * base, mod), exp / 2), mod) == CRem(res * Pow(base, exp), mod)
  {
    var res' := if exp % 2 == 1 then CRem(res * base, mod) else res;
    var half := Pow(base, 2 * (exp / 2));
    CRemOfPower(res', base * base, exp / 2, mod);
    PowOfSquare(base, exp / 2);
    if exp % 2 == 1 {
      CRemOfProduct(res * base, half, mod);
      assert exp == 2 * (exp / 2) + 1;
      assert Pow(base, exp) == base * half;
      assert (res * base) * half == res * (base * half);
    } else {
      assert exp == 2 * (exp / 2);
    }
  }

  lemma ProductIsMonotone(x: nat, y: nat, x': nat, y': nat)
    requires x <= x' && y <= y'
    ensures 0 <= x * y <= x' * y'
  {
    assert 0 <= x * y <= x * y';
    assert (x' - x) * y' >= 0;
  }

  lemma ProductFits(a: int, b: int)
    requires -0x8000_0000 < a < 0x8000_0000 && -0x8000_0000 < b < 0x8000_0000
    ensures -0x4000_0000_0000_0000 < a * b < 0x4000_0000_0000_0000
  {
    var x, y := if a < 0 then -a else a, if b < 0 then -b else b;
    ProductIsMonotone(x, y, 0x7FFF_FFFF, 0x7FFF_FFFF);
    assert a * b == if (a < 0) == (b < 0) then x * y else -(x * y);
  }

  // Square and multiply. Every product stays within signed 64 bits.
  method PowerMod(base: int64, exp: int64, mod: int64) returns (res: int64)
    requires 1 < mod <= 0x8000_0000
    ensures res as int == PowerRem(base as int, exp as int, mod as int)
    ensures -mod < res < mod
  {
    var b, e := CRem64(base, mod), exp;
    res := 1;
    if exp > 0 {
      CRemOfPower(1, base as int, exp as int, mod as int);
    }
    while e > 0
      invariant -mod < b < mod && -mod < res < mod
      invariant e < 0 ==> e == exp
      invariant CRem(res as int * Pow(b as int, if e < 0 then 0 else e as int), mod as int)
             == PowerRem(base as int, exp as int, mod as int)
      decreases e
    {
      HalfStep(res as int, b as int, e as int, mod as int);
      ProductFits(res as int, b as int);
      ProductFits(b as int, b as int);
      if e % 2 == 1 {
        res := CRem64(res * b, mod);
      }
      e := e / 2;
      b := CRem64(b * b, mod);
    }
    assert Pow(b as int, 0) == 1;
    CRemIsUnique(res as int, mod as int, 0, res as int);
  }

  // The result is congruent to the power, and is its least residue for a base >= 0.
  lemma PowerRemIsCongruent(base: int, exp: nat, mod: int)
    requires mod > 0
    ensures (PowerRem(base, exp, mod) - Pow(base, exp)) % mod == 0
    ensures base >= 0 ==> PowerRem(base, exp, mod) == Pow(base, exp) % mod
  {
    var q := CRemDivides(Pow(base, exp), mod);
    assert PowerRem(base, exp, mod) - Pow(base, exp) == (-q) * mod + 0;
    QuotientIsUnique((-q) * mod, mod, -q, 0);
    if base >= 0 {
      PowIsNatural(base, exp);
    }
  }

  lemma {:induction false} PowIsNatural(b: nat, e: nat)
    ensures Pow(b, e) >= 0
  {
    if e > 0 {
      PowIsNatural(b, e - 1);
      assert b * Pow(b, e - 1) >= 0;
    }
  }

  function PublicKey(privateKey: int): int {
    PowerRem(DH_GENERATOR as int, privateKey, DH_PRIME as int)
  }

  function SharedSecret(otherPublicKey: int, privateKey: int): int {
    PowerRem(otherPublicKey, privateKey, DH_PRIME as int)
  }

  method CalculatePublicKey(privateKey: int64) returns (key: int64)
    ensures key as int == PublicKey(privateKey as int)
  {
    key := PowerMod(DH_GENERATOR, privateKey, DH_PRIME);
  }

  method CalculateSharedSecret(otherPublicKey: int64, privateKey: int64) returns (secret: int64)
    ensures secret as int == SharedSecret(otherPublicKey as int, privateKey as int)
  {
    secret := PowerMod(otherPublicKey, privateKey, DH_PRIME);
  }

  // Both sides arrive at G^(ab).
  lemma SecretIsPowerOfProduct(a: nat, b: nat)
    ensures SharedSecret(PublicKey(a), b) == PowerRem(DH_GENERATOR as int, a * b, DH_PRIME as int)
  {
    var g, p := DH_GENERATOR as int, DH_PRIME as int;
    CRemOfPower(1, Pow(g, a), b, p);
    PowOfPow(g, a, b);
    assert a * b >= 0;
  }

  lemma SecretsAgree(a: nat, b: nat)
    ensures SharedSecret(PublicKey(a), b) == SharedSecret(PublicKey(b), a)
  {
    SecretIsPowerOfProduct(a, b);
    SecretIsPowerOfProduct(b, a);
    assert a * b == b * a;
  }

  lemma KeysAreInt64(base: int, exp: int)
    ensures -0x8000_0000 < PowerRem(base, exp, DH_PRIME as int) < 0x8000_0000
  {
    var _ := CRemDivides(Pow(base, if exp < 0 then 0 else exp), DH_PRIME as int);
  }

  // ---------------------------------------------------------------------------
  // The session key
  // ---------------------------------------------------------------------------

  function Digit(d: nat): char
    requires d < 10
  {
    "0123456789"[d]
  }

  function Digits(n: nat): string {
    if n < 10 then [Digit(n)] else Digits(n / 10) + [Digit(n % 10)]
  }

  // printf's %lld.
  function Decimal(n: int): string {
    if n < 0 then "-" + Digits(-n) else Digits(n)
  }

  function SessionKey(secret: int): string {
    "KEY_" + Decimal(secret) + "_SECURE"
  }

  // A key rc4_crypt can use: not empty, and ASCII without NUL.
  predicate UsableKey(key: string) {
    key != [] && forall i :: 0 <= i < |key| ==> 0 < key[i] as int < 128
  }

  // The C string held in a buffer: what precedes the first NUL.
  function CString(buffer: seq<char>): string {
    if buffer == [] || buffer[0] == '\0' then [] else [buffer[0]] + CString(buffer[1..])
  }

  lemma {:induction false} CStringOfText(text: string, rest: seq<char>)
    requires forall i :: 0 <= i < |text| ==> text[i] != '\0'
    requires rest != [] && rest[0] == '\0'
    ensures CString(text + rest) == text
  {
    if text == [] {
      assert text + rest == rest;
    } else {
      assert (text + rest)[1..] == text[1..] + rest;
      CStringOfText(text[1..], rest);
    }
  }

  // snprintf keeps at most Length - 1 characters and always ends with NUL.
  method Snprintf(buffer: array<char>, text: string)
    requires buffer.Length > 0
    modifies buffer
    ensures var n := if |text| < buffer.Length then |text| else buffer.Length - 1;
            buffer[..n] == text[..n] && buffer[n] == '\0'
  {
    var n := if |text| < buffer.Length then |text| else buffer.Length - 1;
    for i := 0 to n
      invariant buffer[..i] == text[..i]
    {
      buffer[i] := text[i];
    }
    buffer[n] := '\0';
  }

  method DeriveSessionKey(secret: int64, buffer: array<char>)
    requires buffer.Length == KEY_BUFFER
    modifies buffer
    ensures CString(buffer[..]) == SessionKey(secret as int)
  {
    var text := SessionKey(secret as int);
    SessionKeyIsUsable(secret as int);
    SessionKeyFits(secret);
    Snprintf(buffer, text);
    CStringOfText(text, buffer[|text|..]);
    assert buffer[..] == text + buffer[|text|..];
  }

  lemma {:induction false} DigitsLength(n: nat, k: nat)
    requires n < Pow(10, k) && k > 0
    ensures |Digits(n)| <= k
  {
    if n >= 10 {
      assert Pow(10, k) == 10 * Pow(10, k - 1);
      DigitsLength(n / 10, k - 1);
    }
  }

  // No 64-bit secret is cut short by the 64-byte key buffer.
  lemma SessionKeyFits(secret: int64)
    ensures |SessionKey(secret as int)| <= 31 < KEY_BUFFER
  {
    var n := if secret < 0 then -(secret as int) else secret as int;
    PowersOfTen();
    DigitsLength(n, 19);
  }

  lemma PowersOfTen()
    ensures Pow(10, 19) == 10_000_000_000_000_000_000
  {
    assert Pow(10, 4) == 10 * (10 * (10 * (10 * Pow(10, 0)))) == 10_000;
    PowOfSum(10, 4, 4);
    PowOfSum(10, 8, 8);
    assert Pow(10, 19) == 10 * (10 * (10 * Pow(10, 16)));
  }

  lemma {:induction false} DigitsAreDigits(n: nat)
    ensures Digits(n) != [] && forall i :: 0 <= i < |Digits(n)| ==> '0' <= Digits(n)[i] <= '9'
  {
    if n >= 10 {
      DigitsAreDigits(n / 10);
    }
  }

  lemma DigitCode(d: nat)
    requires d < 10
    ensures Digit(d) as int == 48 + d
  {}

  // The number a decimal numeral stands for.
  function ReadDigits(text: string): int {
    if text == "" then 0 else 10 * ReadDigits(text[..|text| - 1]) + (text[|text| - 1] as int - 48)
  }

  function ReadNumber(text: string): int {
    if text != "" && text[0] == '-' then -ReadDigits(text[1..]) else ReadDigits(text)
  }

  // A numeral as printf writes it: decimal digits, none of them a superfluous zero.
  predicate IsNumeral(text: string) {
    && text != "" && (forall i :: 0 <= i < |text| ==> 48 <= text[i] as int < 58)
    && (text[0] as int == 48 ==> |text| == 1)
  }

  lemma {:induction false} DigitsReadBack(n: nat)
    ensures ReadDigits(Digits(n)) == n && IsNumeral(Digits(n))
    ensures Digits(n)[0] as int == 48 ==> n == 0
  {
    hide Digit;
    DigitCode(n % 10);
    if n >= 10 {
      DigitsReadBack(n / 10);
      assert Digits(n)[..|Digits(n)| - 1] == Digits(n / 10);
    } else {
      assert Digits(n)[..0] == "";
    }
  }

  // %lld and %d read back as the number, with a sign exactly when it is negative.
  lemma DecimalReadsBack(n: int)
    ensures ReadNumber(Decimal(n)) == n
    ensures if n < 0 then Decimal(n)[..1] == "-" && IsNumeral(Decimal(n)[1..]) else IsNumeral(Decimal(n))
  {
    DigitsReadBack(if n < 0 then -n else n);
    if n < 0 {
      assert Decimal(n)[1..] == Digits(-n);
    }
  }

  // The session key is the secret's numeral between two fixed words.
  lemma SessionKeyText(secret: int)
    ensures var key := SessionKey(secret);
            && |key| > 11 && key[..4] == "KEY_" && key[|key| - 7..] == "_SECURE"
            && var text := key[4..|key| - 7];
               ReadNumber(text) == secret && IsNumeral(if secret < 0 then text[1..] else text)
  {
    DecimalReadsBack(secret);
    var key, text := SessionKey(secret), Decimal(secret);
    assert text != "";
    assert key[4..|key| - 7] == text;
  }

  // The first public keys.
  lemma FirstPublicKeys()
    ensures PublicKey(1) == 16807 && PublicKey(2) == 282475249 && PublicKey(3) == 1622650073
  {}

  lemma SessionKeyIsUsable(secret: int)
    ensures UsableKey(SessionKey(secret))
  {
    DigitsAreDigits(if secret < 0 then -secret else secret);
  }

  lemma {:induction false} DigitsAreInjective(m: nat, n: nat)
    requires Digits(m) == Digits(n)
    ensures m == n
    decreases m + n
  {
    var a, b := Digits(m), Digits(n);
    if m < 10 && n < 10 {
      assert a[0] == b[0];
    } else if m >= 10 && n >= 10 {
      assert Digits(m / 10) == a[..|a| - 1] == b[..|b| - 1] == Digits(n / 10);
      assert a[|a| - 1] == b[|b| - 1];
      DigitsAreInjective(m / 10, n / 10);
    } else {
      DigitsAreDigits(if m >= 10 then m / 10 else n / 10);
    }
  }

  lemma DecimalSign(n: int)
    ensures Decimal(n) != [] && (Decimal(n)[0] == '-' <==> n < 0)
  {
    DigitsAreDigits(if n < 0 then -n else n);
  }

  lemma DecimalIsInjective(a: int, b: int)
    requires Decimal(a) == Decimal(b)
    ensures a == b
  {
    DecimalSign(a);
    DecimalSign(b);
    if a < 0 {
      assert Decimal(a)[1..] == Digits(-a) && Decimal(b)[1..] == Digits(-b);
      DigitsAreInjective(-a, -b);
    } else {
      DigitsAreInjective(a, b);
    }
  }

  // Different secrets give different keys.
  lemma SessionKeyIsInjective(a: int, b: int)
    requires SessionKey(a) == SessionKey(b)
    ensures a == b
  {
    var x, y := Decimal(a), Decimal(b);
    assert |x| == |y|;
    assert x == SessionKey(a)[4..4 + |x|];
    assert y == SessionKey(b)[4..4 + |y|];
    DecimalIsInjective(a, b);
  }
}
