/** Byte strings, little-endian integers, and hashing with an arbitrary hash function. */
module ByteStrings {

  /** The failure members let `:-` return an absent result at once. */
  datatype Option<+T> = None | Some(value: T) {
    predicate IsFailure() { None? }
    function PropagateFailure<U>(): Option<U> { None }
    function Extract(): T requires Some? { value }
  }

  type Byte = b: int | 0 <= b < 256
  type Bytes = seq<Byte>
  type Digest = d: Bytes | |d| == 32 witness seq(32, _ => 0)

  /** SHA-256 is used as a black box: every result holds for any function to 32 bytes. */
  type HashFn = Bytes -> Digest

  /** No two different members of `inputs` have the same hash.  A binding result
      assumes this of the finitely many strings its two computations hash, and of
      no others. */
  ghost predicate CollisionFree(h: HashFn, inputs: set<Bytes>) {
    forall x, y | x in inputs && y in inputs && h(x) == h(y) :: x == y
  }

  /** Two different members of `inputs` with one hash. */
  ghost predicate Collides(h: HashFn, inputs: set<Bytes>, x: Bytes, y: Bytes) {
    x in inputs && y in inputs && x != y && h(x) == h(y)
  }

  /** Where the assumption fails, a colliding pair can be named. */
  lemma CollisionIn(h: HashFn, inputs: set<Bytes>) returns (x: Bytes, y: Bytes)
    ensures CollisionFree(h, inputs) || Collides(h, inputs, x, y)
  {
    x, y := [], [];
    if !CollisionFree(h, inputs) {
      x, y :| x in inputs && y in inputs && h(x) == h(y) && x != y;
    }
  }

  function Zeros(n: nat): (z: Bytes)
    ensures |z| == n && forall i | 0 <= i < n :: z[i] == 0
  {
    seq(n, _ => 0)
  }

  /** The low eight bits of every UTF-16 unit, as the "ascii" Buffer encoding writes them. */
  function Ascii(s: string): (b: Bytes)
    ensures |b| == |s|
  {
    seq(|s|, i requires 0 <= i < |s| => s[i] as int % 256)
  }

  function Min(a: int, b: int): int {
    if a < b then a else b
  }

  // ---------- little-endian integers ----------

  const U32_LIMIT := 0x1_0000_0000
  const U64_LIMIT := 0x1_0000_0000_0000_0000

  function Pow256(w: nat): (p: nat)
    ensures p > 0
  {
    if w == 0 then 1 else 256 * Pow256(w - 1)
  }

  lemma Limits()
    ensures Pow256(1) == 256 && Pow256(2) == 0x1_0000 && Pow256(4) == U32_LIMIT && Pow256(8) == U64_LIMIT
  {
    assert Pow256(3) == 0x100_0000;
    assert Pow256(5) == 0x100_0000_0000;
    assert Pow256(7) == 0x100_0000_0000_0000;
  }

  /** The `w` low bytes of `n`, least significant first. */
  function LE(n: nat, w: nat): (b: Bytes)
    ensures |b| == w
  {
    if w == 0 then [] else [n % 256] + LE(n / 256, w - 1)
  }

  function FromLE(b: Bytes): nat {
    if b == [] then 0 else b[0] + 256 * FromLE(b[1..])
  }

  lemma {:induction false} FromLEOfLE(n: nat, w: nat)
    requires n < Pow256(w)
    ensures FromLE(LE(n, w)) == n
  {
    if w > 0 {
      FromLEOfLE(n / 256, w - 1);
      assert LE(n, w)[1..] == LE(n / 256, w - 1);
    }
  }

  lemma {:induction false} LEOfFromLE(b: Bytes)
    ensures FromLE(b) < Pow256(|b|) && LE(FromLE(b), |b|) == b
    ensures forall n: nat :: n < Pow256(|b|) && LE(n, |b|) == b ==> n == FromLE(b)
  {
    hide Pow256, LE, FromLE;
    FromLESteps(b);
    if b != [] {
      LEOfFromLE(b[1..]);
      LowByte(b[0], FromLE(b[1..]), |b| - 1);
      assert b == [b[0]] + b[1..];
    }
    forall n: nat | n < Pow256(|b|) && LE(n, |b|) == b ensures n == FromLE(b) {
      FromLEOfLE(n, |b|);
    }
  }

  lemma FromLESteps(b: Bytes)
    ensures FromLE([]) == 0 && LE(0, 0) == [] && Pow256(0) == 1
    ensures b != [] ==> FromLE(b) == b[0] + 256 * FromLE(b[1..])
  {
  }

  lemma LowByte(low: Byte, n: nat, w: nat)
    requires n < Pow256(w)
    ensures low + 256 * n < Pow256(w + 1) && LE(low + 256 * n, w + 1) == [low] + LE(n, w)
  {
    assert (low + 256 * n) % 256 == low && (low + 256 * n) / 256 == n;
  }

  /** Byte i of the little-endian form is the i-th base-256 digit, the lowest first. */
  lemma {:induction false} LEAt(n: nat, w: nat, i: nat)
    requires i < w
    ensures LE(n, w)[i] == n / Pow256(i) % 256
  {
    if i > 0 {
      LEAt(n / 256, w - 1, i - 1);
      DivTwice(n, 256, Pow256(i - 1));
    }
  }

  lemma DivTwice(n: nat, a: nat, b: nat)
    requires a > 0 && b > 0
    ensures a * b > 0 && n / a / b == n / (a * b)
  {
    Positive(a, b);
    Nested(n, n / a, n % a, n / a / b, n / a % b, a, b);
    Quotient(n, a * b, n / a / b, a * (n / a % b) + n % a);
  }

  lemma Positive(a: nat, b: nat)
    requires a > 0 && b > 0
    ensures a * b > 0
  {
  }

  lemma Nested(n: nat, q: nat, r: nat, p: nat, t: nat, a: nat, b: nat)
    requires n == a * q + r && q == b * p + t && r < a && t < b
    ensures n == a * b * p + (a * t + r) && 0 <= a * t + r < a * b
  {
    assert a * q == a * b * p + a * t;
    assert a * (t + 1) <= a * b;
  }

  lemma Quotient(n: nat, m: nat, q: nat, r: nat)
    requires m > 0 && n == m * q + r && r < m
    ensures n / m == q
  {
    var d := n / m - q;
    assert m * d == r - n % m;
    Multiple(m, d);
  }

  lemma Multiple(m: nat, d: int)
    requires m > 0
    ensures (d > 0 ==> m * d >= m) && (d < 0 ==> m * d + m <= 0)
  {
  }

  /** A printable character is the byte of its code. */
  lemma AsciiAt(s: string, i: nat)
    requires i < |s| && s[i] as int < 128
    ensures Ascii(s)[i] == s[i] as int
  {
  }

  lemma LEInjective(m: nat, n: nat, w: nat)
    requires m < Pow256(w) && n < Pow256(w) && LE(m, w) == LE(n, w)
    ensures m == n
  {
    FromLEOfLE(m, w);
    FromLEOfLE(n, w);
  }

  // ---------- cutting a string at a known place ----------

  lemma SplitAt<T>(a: seq<T>, b: seq<T>, c: seq<T>, d: seq<T>)
    requires a + b == c + d && |a| == |c|
    ensures a == c && b == d
  {
    assert a == (a + b)[..|a|] && c == (c + d)[..|c|];
    assert b == (a + b)[|a|..] && d == (c + d)[|c|..];
  }
}
