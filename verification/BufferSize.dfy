/**
 The size of the read buffer, computed in single precision: `ceil((float)f_size / (float)1024) * 1024`.
 Converting the file size rounds to the nearest binary32 number, ties to the even significand (section
 4.3.1 of IEEE 754-2008); dividing and multiplying by 1024 is exact.
 */
module BufferSize {

  /** binary32 holds 24-bit significands. */
  const SIGNIFICAND := 0x100_0000
  const CHUNK := 1024

  /** The distance between neighbouring binary32 numbers at n. */
  function Ulp(n: nat): (u: nat)
    ensures u >= 1
  {
    if n < SIGNIFICAND then 1 else 2 * Ulp(n / 2)
  }

  /** A natural number that binary32 represents: a significand of at most 24 bits, doubled any number of times. */
  predicate Representable(m: nat) {
    m <= SIGNIFICAND || (m % 2 == 0 && Representable(m / 2))
  }

  /** The largest multiple of u up to n. */
  function Below(n: nat, u: nat): nat
    requires u > 0
  {
    n - n % u
  }

  /** The multiple of u nearest to n, ties to the even one. */
  function RoundTo(n: nat, u: nat): nat
    requires u > 0
  {
    var r := n % u;
    if 2 * r < u || (2 * r == u && n / u % 2 == 0) then n - r else n - r + u
  }

  /** `(float)n`. */
  function ToFloat(n: nat): nat {
    RoundTo(n, Ulp(n))
  }

  function Distance(a: nat, b: nat): nat {
    if a < b then b - a else a - b
  }

  /** `align_size`. */
  function AlignSize(fileSize: nat): nat {
    CeilChunks(ToFloat(fileSize))
  }

  // ----- the rounding is the nearest one

  lemma {:induction false} Halving(n: nat)
    requires n >= SIGNIFICAND
    ensures Ulp(n) == 2 * Ulp(n / 2) && n / Ulp(n) == (n / 2) / Ulp(n / 2)
    ensures Below(n, Ulp(n)) == 2 * (Below(n / 2, Ulp(n / 2)))
  {
    var u := Ulp(n / 2);
    var q, r := (n / 2) / u, (n / 2) % u;
    assert n == q * (2 * u) + (2 * r + n % 2);
    assert 2 * r + n % 2 < 2 * u;
    Quotient(n, 2 * u, q, 2 * r + n % 2);
  }

  lemma Multiple(x: int, d: int)
    requires d >= 0
    ensures x >= 1 ==> x * d >= d
    ensures x <= -1 ==> x * d <= -d
  {
    if x >= 1 {
      assert x * d == d + (x - 1) * d && (x - 1) * d >= 0;
    } else if x <= -1 {
      assert x * d == -d + (x + 1) * d && (x + 1) * d <= 0;
    }
  }

  /** Quotient and remainder are unique. */
  lemma Quotient(n: nat, d: nat, q: nat, r: nat)
    requires d > 0 && n == q * d + r && r < d
    ensures n / d == q && n % d == r
  {
    var k, m := n / d, n % d;
    assert n == k * d + m;
    assert (k - q) * d == k * d - q * d;
    Multiple(k - q, d);
  }

  /** Beyond 24 bits the significand is normalised. */
  lemma {:induction false} Normalised(n: nat)
    ensures n >= SIGNIFICAND ==> Below(n, Ulp(n)) >= SIGNIFICAND
    decreases n
  {
    if n >= SIGNIFICAND {
      Halving(n);
      Normalised(n / 2);
    }
  }

  /** No representable number lies strictly between the two candidates. */
  lemma {:induction false} NothingBetween(n: nat, m: nat)
    requires Representable(m)
    ensures m <= Below(n, Ulp(n)) || m >= Below(n, Ulp(n)) + Ulp(n)
    decreases n
  {
    if n >= SIGNIFICAND {
      Halving(n);
      Normalised(n);
      if m % 2 == 0 {
        NothingBetween(n / 2, m / 2);
      }
    }
  }

  /** n without the bits that do not fit. */
  function Truncated(n: nat): nat {
    if n < SIGNIFICAND then n else 2 * Truncated(n / 2)
  }

  lemma {:induction false} TruncatedIsCandidate(n: nat)
    ensures Truncated(n) == Below(n, Ulp(n))
    decreases n
  {
    if n >= SIGNIFICAND {
      Halving(n);
      TruncatedIsCandidate(n / 2);
    }
  }

  lemma {:induction false} TruncatedIsRepresentable(n: nat)
    ensures Representable(Truncated(n)) && Representable(Truncated(n) + Ulp(n))
    decreases n
  {
    if n >= SIGNIFICAND {
      TruncatedIsRepresentable(n / 2);
      Doubled(Truncated(n / 2));
      Doubled(Truncated(n / 2) + Ulp(n / 2));
    }
  }

  lemma Doubled(half: nat)
    requires Representable(half)
    ensures Representable(2 * half)
  {
    assert 2 * half % 2 == 0 && 2 * half / 2 == half;
  }

  lemma CandidatesAreRepresentable(n: nat)
    ensures Representable(Below(n, Ulp(n))) && Representable(Below(n, Ulp(n)) + Ulp(n))
  {
    TruncatedIsCandidate(n);
    TruncatedIsRepresentable(n);
  }

  /** `(float)n` is a binary32 number, and none is closer to n. */
  lemma {:induction false} ToFloatIsNearest(n: nat, x: nat, m: nat)
    requires x == ToFloat(n) && Representable(m)
    ensures Representable(x) && Distance(x, n) <= Distance(m, n)
  {
    CandidatesAreRepresentable(n);
    NothingBetween(n, m);
  }

  /** On a grid of step u: of two candidates that are as close, n is rounded to an even multiple. */
  lemma RoundsToEven(n: nat, u: nat)
    requires u > 0 && 2 * (n % u) == u
    ensures RoundTo(n, u) / u % 2 == 0
  {
    Quotient(n - n % u, u, n / u, 0);
    if n / u % 2 == 1 {
      Quotient(n - n % u + u, u, n / u + 1, 0);
    }
  }

  /** A number beyond the candidates is as close as the nearest one only if that is the other, halfway. */
  lemma OtherCandidate(n: nat, u: nat, m: nat)
    requires u > 0 && (m <= Below(n, u) || m >= Below(n, u) + u)
    requires m != RoundTo(n, u) && Distance(m, n) == Distance(RoundTo(n, u), n)
    ensures 2 * (n % u) == u
  {
  }

  /** If another binary32 number is as close, `(float)n` is the one with the even significand. */
  lemma TiesToEven(n: nat, m: nat)
    requires Representable(m) && m != ToFloat(n) && Distance(m, n) == Distance(ToFloat(n), n)
    ensures ToFloat(n) / Ulp(n) % 2 == 0
  {
    NothingBetween(n, m);
    OtherCandidate(n, Ulp(n), m);
    RoundsToEven(n, Ulp(n));
  }

  // ----- when the buffer is large enough

  /** What a caller can check: single precision does not round the file size down to the chunk
      boundary below it. */
  predicate AlignSafe(fileSize: nat) {
    SafeFor(fileSize, Ulp(fileSize))
  }

  predicate SafeFor(n: nat, u: nat)
    requires u > 0
  {
    var t := n % (if u < CHUNK then CHUNK else u);
    t == 0 || 2 * t > u || (2 * t == u && n / u % 2 == 1)
  }

  /** The grid steps finer than a chunk. */
  predicate FineStep(u: nat) {
    u in {1, 2, 4, 8, 16, 32, 64, 128, 256, 512}
  }

  lemma {:induction false} UlpIsPowerOfTwo(n: nat)
    ensures FineStep(Ulp(n)) || Ulp(n) % CHUNK == 0
    decreases n
  {
    if n >= SIGNIFICAND {
      UlpIsPowerOfTwo(n / 2);
    }
  }

  function CeilChunks(x: nat): nat {
    (x + CHUNK - 1) / CHUNK * CHUNK
  }

  /** Remainders by the chunk and by a step of k steps to the chunk: n is c chunks, q steps and r. */
  lemma Remainders(c: nat, k: nat, q: nat, u: nat, r: nat)
    requires k * u == CHUNK && q < k && r < u
    ensures var n := c * CHUNK + q * u + r;
      n % CHUNK == q * u + r && n % u == r && q * u + u <= CHUNK
  {
    var n := c * CHUNK + q * u + r;
    Multiple(k - q, u);
    assert (k - q) * u == k * u - q * u;
    Quotient(n, CHUNK, c, q * u + r);
    assert c * CHUNK == (c * k) * u by {
      assert c * (k * u) == (c * k) * u;
    }
    assert (c * k + q) * u == (c * k) * u + q * u;
    Quotient(n, u, c * k + q, r);
  }

  /** How many steps make a chunk. */
  lemma StepsPerChunk(u: nat) returns (k: nat)
    requires FineStep(u)
    ensures u >= 1 && k * u == CHUNK
  {
    k := CHUNK / u;
  }

  /** A chunk boundary is a multiple of every finer grid step. */
  lemma BoundaryOnGrid(n: nat, u: nat)
    requires FineStep(u)
    ensures n % CHUNK < u ==> n % u == n % CHUNK
    ensures n % CHUNK - n % u >= 0 && n % CHUNK - n % u + u <= CHUNK
  {
    var k := StepsPerChunk(u);
    var c, t := n / CHUNK, n % CHUNK;
    var q, r := t / u, t % u;
    assert t == q * u + r;
    StepsInChunk(k, q, u, r);
    Remainders(c, k, q, u, r);
    Multiple(q, u);
  }

  lemma StepsInChunk(k: nat, q: nat, u: nat, r: nat)
    requires k * u == CHUNK && q * u + r < CHUNK
    ensures q < k
  {
    if q >= k {
      assert q * u == k * u + (q - k) * u;
      Multiple(q - k, u);
    }
  }

  /** A number between two chunk boundaries is taken up to the second, unless it is the first. */
  lemma CeilBetween(b: nat, x: nat)
    requires b % CHUNK == 0 && b <= x <= b + CHUNK
    ensures CeilChunks(x) == if x == b then b else b + CHUNK
  {
  }

  /** On a grid finer than a chunk. */
  lemma FineGrid(n: nat, u: nat)
    requires FineStep(u)
    ensures CeilChunks(RoundTo(n, u)) >= n <==> SafeFor(n, u)
  {
    BoundaryOnGrid(n, u);
    BoundaryBelow(n);
    var t, x := n % CHUNK, RoundTo(n, u);
    CeilBetween(n - t, x);
    if t < u {
      RoundsUp(n, u);
    } else {
      assert x >= n - n % u > n - t;
    }
  }

  lemma BoundaryBelow(n: nat)
    ensures (n - n % CHUNK) % CHUNK == 0
  {
    Quotient(n - n % CHUNK, CHUNK, n / CHUNK, 0);
  }

  lemma FloorIsMultiple(n: nat, u: nat)
    requires u > 0 && u % CHUNK == 0
    ensures (n - n % u) % CHUNK == 0
  {
    var q, k := n / u, u / CHUNK;
    assert n - n % u == q * u;
    assert q * (k * CHUNK) == (q * k) * CHUNK;
    Quotient(n - n % u, CHUNK, q * k, 0);
  }

  lemma CeilOfMultiple(x: nat)
    requires x % CHUNK == 0
    ensures CeilChunks(x) == x
  {
    CeilBetween(x, x);
  }

  lemma SumOfMultiples(x: nat, u: nat)
    requires x % CHUNK == 0 && u % CHUNK == 0
    ensures (x + u) % CHUNK == 0
  {
    var a, b := x / CHUNK, u / CHUNK;
    assert x == a * CHUNK && u == b * CHUNK;
    Quotient(x + u, CHUNK, a + b, 0);
  }

  /** Both neighbours on a grid of whole chunks are whole chunks, so rounding gives one. */
  lemma RoundedIsMultiple(n: nat, u: nat)
    requires u > 0 && u % CHUNK == 0
    ensures RoundTo(n, u) % CHUNK == 0
  {
    FloorIsMultiple(n, u);
    SumOfMultiples(n - n % u, u);
  }

  /** On a grid of whole chunks. */
  lemma CoarseGrid(n: nat, u: nat)
    requires u > 0 && u % CHUNK == 0
    ensures CeilChunks(RoundTo(n, u)) >= n <==> SafeFor(n, u)
  {
    RoundedIsMultiple(n, u);
    CeilOfMultiple(RoundTo(n, u));
    RoundsUp(n, u);
    assert u >= CHUNK;
  }

  lemma RoundsUp(n: nat, u: nat)
    requires u > 0
    ensures RoundTo(n, u) >= n <==>
      var t := n % u; t == 0 || 2 * t > u || (2 * t == u && n / u % 2 == 1)
  {
  }

  /** The buffer is at least as large as the file exactly for the sizes that pass the check. */
  lemma AlignCoversIffSafe(fileSize: nat)
    ensures AlignSize(fileSize) >= fileSize <==> AlignSafe(fileSize)
  {
    UlpIsPowerOfTwo(fileSize);
    if Ulp(fileSize) % CHUNK == 0 {
      CoarseGrid(fileSize, Ulp(fileSize));
    } else {
      FineGrid(fileSize, Ulp(fileSize));
    }
  }

  /** The buffer is a whole number of chunks, so covering the file means covering its last chunk. */
  lemma AlignIsWhole(fileSize: nat)
    ensures AlignSize(fileSize) % CHUNK == 0
    ensures AlignSize(fileSize) >= fileSize <==> AlignSize(fileSize) >= CeilChunks(fileSize)
  {
    CeilIsWhole(ToFloat(fileSize), fileSize);
  }

  lemma CeilIsWhole(x: nat, n: nat)
    ensures CeilChunks(x) % CHUNK == 0
    ensures CeilChunks(x) >= n <==> CeilChunks(x) >= CeilChunks(n)
  {
    CeilIsLeast(n, (x + CHUNK - 1) / CHUNK);
  }

  /** Up to 2^24 bytes the buffer is the least whole number of chunks that covers the file. */
  lemma AlignIsLeast(fileSize: nat, chunks: nat)
    requires fileSize <= SIGNIFICAND
    ensures AlignSafe(fileSize) && AlignSize(fileSize) % CHUNK == 0
    ensures chunks * CHUNK >= fileSize ==> chunks * CHUNK >= AlignSize(fileSize) >= fileSize
  {
    SmallIsExact(fileSize);
    AlignCoversIffSafe(fileSize);
    CeilIsLeast(fileSize, chunks);
  }

  lemma SmallIsExact(n: nat)
    requires n <= SIGNIFICAND
    ensures ToFloat(n) == n
  {
    assert Ulp(n) == if n < SIGNIFICAND then 1 else 2;
  }

  lemma CeilIsLeast(x: nat, chunks: nat)
    ensures CeilChunks(x) % CHUNK == 0 && CeilChunks(x) >= x
    ensures chunks * CHUNK >= x ==> chunks * CHUNK >= CeilChunks(x)
  {
  }

  /** The first size for which it is too small: the last byte is rounded away. */
  lemma AlignTooSmall()
    ensures AlignSize(0x100_0001) == 0x100_0000 && !AlignSafe(0x100_0001)
  {
    assert Ulp(0x100_0001) == 2 * Ulp(0x80_0000);
  }
}
