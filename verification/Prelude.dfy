/** Vocabulary shared by the models: optional values, octets, 32-bit counters, C strings. */
module Prelude {

  datatype Option<+T> = None | Some(value: T)

  type byte = x: int | 0 <= x < 256 witness 0

  /** Number of values of the source's uint32_t. */
  const TWO_32: nat := 0x1_0000_0000

  /** The value a uint32_t holds after counting up to n. */
  function Wrap32(n: int): (r: nat)
  {
    n % 0x1_0000_0000
  }

  function Min(a: int, b: int): (r: int)
  {
    if a <= b then a else b
  }

  function Max(a: int, b: int): (r: int)
  {
    if a >= b then a else b
  }

  function Digit(d: nat): (r: char)
    requires d < 10
  {
    (48 + d) as char
  }

  /** "%u" */
  function Decimal(n: nat): (s: string)
    ensures s != ""
  {
    if n < 10 then [Digit(n)] else Decimal(n / 10) + [Digit(n % 10)]
  }

  /** What a C function sees of a buffer: the characters before the first NUL. */
  function CStr(s: string): (r: string)
    ensures r <= s && '\0' !in r
    ensures |r| < |s| ==> s[|r|] == '\0'
  {
    if s == "" || s[0] == '\0' then "" else [s[0]] + CStr(s[1..])
  }

  /** A C string goes on exactly up to the first NUL. */
  lemma {:induction false} CStrAt(s: string, p: nat)
    requires p <= |CStr(s)|
    ensures p < |CStr(s)| <==> p < |s| && s[p] != '\0'
    ensures p < |CStr(s)| ==> CStr(s)[p] == s[p]
  {
    if p > 0 {
      CStrAt(s[1..], p - 1);
    }
  }

  function UpperChar(c: char): (r: char) {
    if 'a' <= c <= 'z' then (c as int - 32) as char else c
  }

  function Upper(s: string): (r: string) {
    seq(|s|, i requires 0 <= i < |s| => UpperChar(s[i]))
  }

  newtype uint16 = x: int | 0 <= x < 0x1_0000
  newtype uint32 = x: int | 0 <= x < 0x1_0000_0000
  newtype uint64 = x: int | 0 <= x < 0x1_0000_0000_0000_0000

  /** a - b on uint32_t. */
  function Minus32(a: uint32, b: uint32): (r: uint32)
    ensures r as int == (a as int - b as int) % 0x1_0000_0000
  {
    if a >= b then a - b else 0xFFFF_FFFF - b + a + 1
  }

  function Next32(n: uint32): (r: uint32)
    ensures r as int == Wrap32(n as int + 1)
  {
    if n == 0xFFFF_FFFF then 0 else n + 1
  }

  // ----- Counting modulo 2^32 -----

  lemma WrapSucc(n: nat)
    ensures Wrap32(Wrap32(n) + 1) == Wrap32(n + 1)
  {
  }

  lemma WrapMoves(n: nat)
    requires n < TWO_32
    ensures Wrap32(n + 1) != n
  {
  }

  lemma WrapSmall(n: nat)
    requires n < TWO_32
    ensures Wrap32(n) == n
  {
  }

  lemma WrapShift(a: nat, b: nat)
    ensures Wrap32(a + Wrap32(b)) == Wrap32(a + b)
  {
  }

  lemma WrapSum(a: nat, b: nat, c: nat)
    ensures Wrap32(Wrap32(a) + Wrap32(b) + c) == Wrap32(a + b + c)
  {
    WrapShift(a + c, b);
    WrapShift(Wrap32(b) + c, a);
  }

  function Wraps(k: int): (r: int) {
    k * 0x1_0000_0000
  }

  /** Two counts a uint32_t cannot tell apart. */
  ghost predicate Same32(a: nat, b: nat) {
    exists k :: a == b + Wraps(k)
  }

  lemma SameSelf(a: nat)
    ensures Same32(a, a)
  {
    assert a == a + Wraps(0);
  }

  lemma SameShift(a: nat, b: nat, c: nat)
    requires Same32(a + b, c)
    ensures Same32(a + Wrap32(b), c)
  {
    var k :| a + b == c + Wraps(k);
    assert a + Wrap32(b) == c + Wraps(k - b / 0x1_0000_0000);
  }

  lemma SameSucc(a: nat, b: nat)
    requires Same32(a, b)
    ensures Same32(a + 1, b + 1)
  {
    var k :| a == b + Wraps(k);
    assert a + 1 == b + 1 + Wraps(k);
  }

  lemma SameWraps(a: nat, b: nat)
    requires Same32(a, b)
    ensures Wrap32(a) == Wrap32(b)
  {
    var k :| a == b + Wraps(k);
  }
}
