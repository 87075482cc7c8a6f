/** Identifier and date arithmetic of the identity layer: the djb2-style
    account token, the salted password digest and the age computation. */
module Identity {
  import opened Common

  /** 2^k. */
  function Pow2(k: nat): (r: nat)
    ensures r >= 1
  {
    if k == 0 then 1 else 2 * Pow2(k - 1)
  }

  /** 2^32: `& 0xFFFFFFFF` on a non-negative Python int is reduction
      modulo this. */
  const Two32: nat := 0x1_0000_0000

  lemma {:induction false} Pow2Add(a: nat, b: nat)
    ensures Pow2(a + b) == Pow2(a) * Pow2(b)
  {
    if a > 0 {
      Pow2Add(a - 1, b);
    }
  }

  lemma Pow2Is32()
    ensures Pow2(32) == Two32
  {
    assert Pow2(8) == 256;
    Pow2Add(8, 8);
    Pow2Add(16, 16);
  }

  /** Python's `^` on non-negative integers, bit by bit from the lowest. */
  function Xor(a: nat, b: nat): nat
    decreases a + b
  {
    if a == 0 && b == 0 then 0
    else 2 * Xor(a / 2, b / 2) + (if a % 2 == b % 2 then 0 else 1)
  }

  /** One step of the fold: `hash_code = (hash_code * 33) ^ ord(char)`. */
  function DjbStep(h: nat, c: char): nat {
    Xor(h * 33, c as nat)
  }

  /** A xor of two numbers below 2^k is below 2^k. */
  lemma {:induction false} XorBound(a: nat, b: nat, k: nat)
    requires a < Pow2(k) && b < Pow2(k)
    ensures Xor(a, b) < Pow2(k)
  {
    if k > 0 && (a != 0 || b != 0) {
      XorBound(a / 2, b / 2, k - 1);
    }
  }

  /** The unbounded fold of the source: start at 5381, step once per
      character, never reduce. The integer the loop carries grows by at
      most six bits per character (the factor 33 is below 2^6 and a code
      point below 2^21): its size is linear in the input's length. */
  function DjbFold(s: string): (h: nat)
    ensures h < Pow2(15 + 6 * |s|)
    decreases |s|
  {
    if s == [] then
      assert Pow2(15) == 32768;
      5381
    else
      var h, c := DjbFold(s[..|s| - 1]), s[|s| - 1];
      StepBound(h, c, 15 + 6 * (|s| - 1));
      DjbStep(h, c)
  }

  /** One step adds at most six bits to a number of at least fifteen. */
  lemma StepBound(h: nat, c: char, k: nat)
    requires k >= 15 && h < Pow2(k)
    ensures DjbStep(h, c) < Pow2(k + 6)
  {
    var p := Pow2(k);
    Pow2Add(6, k);
    Pow2Add(21, k - 15);
    assert Pow2(6) == 64 && Pow2(21) == 0x20_0000;
    assert Pow2(k + 6) == 64 * p;
    assert h * 33 < 64 * p;
    assert c as nat < 0x20_0000 <= Pow2(k + 6);
    XorBound(h * 33, c as nat, k + 6);
  }

  /** The same fold as a 32-bit machine would run it, reducing after
      every step. */
  function DjbFold32(s: string): (h: nat)
    ensures h < Two32
    decreases |s|
  {
    if s == [] then 5381
    else Xor((DjbFold32(s[..|s| - 1]) * 33) % Two32, s[|s| - 1] as nat) % Two32
  }

  /** Euclidean division is unique. */
  lemma DivModUnique(x: int, n: int, d: int, r: int)
    requires n > 0 && 0 <= r < n && x == n * d + r
    ensures x % n == r && x / n == d
  {
    var k := d - x / n;
    assert n * k == x % n - r;
  }

  /** Reducing modulo 2p splits into the low bit and the rest modulo p. */
  lemma ModDouble(x: nat, p: nat)
    requires p >= 1
    ensures x % (2 * p) == 2 * ((x / 2) % p) + x % 2
  {
    var q := x / 2;
    assert q == p * (q / p) + q % p;
    assert x == (2 * p) * (q / p) + (2 * (q % p) + x % 2);
    DivModUnique(x, 2 * p, q / p, 2 * (q % p) + x % 2);
  }

  /** Multiplication commutes with reduction modulo n. */
  lemma MulMod(a: nat, m: nat, n: nat)
    requires n > 0
    ensures ((a % n) * m) % n == (a * m) % n
  {
    var q, r := a / n, a % n;
    assert a * m == n * (q * m) + r * m by {
      assert a == n * q + r;
    }
    assert r * m == n * ((r * m) / n) + (r * m) % n;
    assert a * m == n * (q * m + (r * m) / n) + (r * m) % n;
    DivModUnique(a * m, n, q * m + (r * m) / n, (r * m) % n);
  }

  /** The low k bits of a xor are the xor of the low k bits. */
  lemma {:induction false} XorLowBits(a: nat, b: nat, k: nat)
    ensures Xor(a, b) % Pow2(k) == Xor(a % Pow2(k), b % Pow2(k))
  {
    if k > 0 {
      var p := Pow2(k - 1);
      assert Pow2(k) == 2 * p;
      XorLowBits(a / 2, b / 2, k - 1);
      ModDouble(a, p);
      ModDouble(b, p);
      var x := Xor(a, b);
      var bit := if a % 2 == b % 2 then 0 else 1;
      assert x == 2 * Xor(a / 2, b / 2) + bit;
      ModDouble(x, p);
      assert x / 2 == Xor(a / 2, b / 2) && x % 2 == bit;
      var a', b' := a % (2 * p), b % (2 * p);
      assert a' / 2 == (a / 2) % p && a' % 2 == a % 2;
      assert b' / 2 == (b / 2) % p && b' % 2 == b % 2;
      assert Xor(a', b') == 2 * Xor(a' / 2, b' / 2) + bit;
    }
  }

  /** The low 32 bits of a xor are the xor of the low 32 bits. */
  lemma XorLow32(a: nat, b: nat)
    ensures Xor(a, b) % Two32 == Xor(a % Two32, b % Two32)
  {
    Pow2Is32();
    XorLowBits(a, b, 32);
  }

  /** Masking only at the end, as the source does, gives the same token as
      masking after every step. */
  lemma {:induction false} MaskEveryStep(s: string)
    ensures DjbFold32(s) == DjbFold(s) % Two32
    decreases |s|
  {
    if s != [] {
      var p, c := s[..|s| - 1], s[|s| - 1] as nat;
      MaskEveryStep(p);
      var low := (DjbFold(p) * 33) % Two32;
      MulMod(DjbFold(p), 33, Two32);
      assert DjbFold32(s) == Xor(low, c) % Two32;
      assert DjbFold(s) == Xor(DjbFold(p) * 33, c);
      XorLow32(DjbFold(p) * 33, c);
      XorLow32(low, c);
      DivModUnique(low, Two32, 0, low);
    }
  }

  /** `gen_token`: fold `email + firstname + lastname + salt` and keep the
      low 32 bits. The result is a number although the source annotates
      it as `str`. */
  method GenToken(email: string, firstname: string, lastname: string, salt: string) returns (token: nat)
    ensures token == DjbFold(email + firstname + lastname + salt) % Two32
    ensures token == DjbFold32(email + firstname + lastname + salt)
    ensures token < Two32
  {
    var s := email + firstname + lastname + salt;
    var hash: nat := 5381;
    for i := 0 to |s|
      invariant hash == DjbFold(s[..i])
    {
      assert s[..i + 1][..i] == s[..i];
      hash := Xor(hash * 33, s[i] as nat);
    }
    assert s[..|s|] == s;
    token := hash % Two32;
    MaskEveryStep(s);
  }

  /** The decimal digit d. */
  function Digit(d: nat): (c: char)
    requires d < 10
    ensures '0' <= c <= '9' && c as int - '0' as int == d
  {
    (48 + d) as char
  }

  /** `str(n)`: the account token as the users table's text column holds
      it (the integer is stored in a `String` column). */
  function DecimalString(n: nat): (s: string)
    ensures |s| >= 1
    ensures forall i :: 0 <= i < |s| ==> '0' <= s[i] <= '9'
  {
    if n < 10 then [Digit(n)] else DecimalString(n / 10) + [Digit(n % 10)]
  }

  /** `int(s)` for a string of decimal digits. */
  function DecimalValue(s: string): nat
    requires forall i :: 0 <= i < |s| ==> '0' <= s[i] <= '9'
    decreases |s|
  {
    if s == [] then 0 else DecimalValue(s[..|s| - 1]) * 10 + (s[|s| - 1] as int - '0' as int)
  }

  /** Reading back the decimal text of a number gives the number. */
  lemma {:induction false} DecimalRoundTrip(n: nat)
    ensures DecimalValue(DecimalString(n)) == n
  {
    if n >= 10 {
      DecimalRoundTrip(n / 10);
      var s := DecimalString(n);
      assert s[..|s| - 1] == DecimalString(n / 10);
    }
  }

  /** `gen_password`: the digest of `password + salt`; the digest function
      (MD5 as hex text in the source) is a parameter. */
  function GenPassword(md5: string -> string, salt: string, password: string): string {
    md5(password + salt)
  }

  /** `(today.month, today.day) < (birthday.month, birthday.day)`. */
  predicate MonthDayBefore(today: Date, birthday: Date) {
    today.month < birthday.month || (today.month == birthday.month && today.day < birthday.day)
  }

  /** `calculate_age`; the date of today is a parameter. */
  function CalculateAge(birthday: Date, today: Date): (age: int)
    ensures age == today.year - birthday.year || age == today.year - birthday.year - 1
    ensures DateLeq(birthday, today) ==> age >= 0
  {
    today.year - birthday.year - (if MonthDayBefore(today, birthday) then 1 else 0)
  }

  /** The n-th anniversary of a birthday falls on or before today. */
  predicate AnniversaryReached(birthday: Date, today: Date, n: int) {
    DateLeq(Date(birthday.year + n, birthday.month, birthday.day), today)
  }

  /** The age is the number of completed years: the anniversary of that
      number has been reached, the next one has not. */
  lemma AgeIsCompletedYears(birthday: Date, today: Date)
    ensures AnniversaryReached(birthday, today, CalculateAge(birthday, today))
    ensures !AnniversaryReached(birthday, today, CalculateAge(birthday, today) + 1)
  {
  }

  /** The age is one less than the difference of years exactly when today's
      (month, day) precedes the birthday's. */
  lemma AgeYearDifference(birthday: Date, today: Date)
    ensures CalculateAge(birthday, today) == today.year - birthday.year - 1
            <==> MonthDayBefore(today, birthday)
    ensures DateLeq(birthday, today) ==> CalculateAge(birthday, today) >= 0
  {
  }
}
