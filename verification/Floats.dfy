/** The single-precision arithmetic by which the driver counts the clusters of a file. */
module Floats {
  import opened Words
  import opened FatLayout

  /** Spacing of the single-precision numbers (24-bit significand) around an integer `n`. */
  function Ulp(n: nat): (u: nat)
    ensures u > 0
  {
    if n < 0x100_0000 then 1 else 2 * Ulp(n / 2)
  }

  function Times(a: nat, b: nat): nat {
    a * b
  }

  function Quotient(n: nat, d: nat): nat
    requires d > 0
  {
    n / d
  }

  predicate RoundsDown(n: Word) {
    var q, r := Quotient(n, Ulp(n)), n % Ulp(n);
    2 * r < Ulp(n) || (2 * r == Ulp(n) && q % 2 == 0)
  }

  /** `n` rounded to the nearest single-precision number, ties to the even significand. */
  function FloatOf(n: Word): nat {
    var q := Quotient(n, Ulp(n));
    Times(if RoundsDown(n) then q else q + 1, Ulp(n))
  }

  /**
   `ceil(n / (float)CLUSTER_SIZE)`: dividing by a power of two loses nothing, so the only
   rounding is that of `n`; `ceil` truncates and adds one when a fraction was cut off.
   */
  function CeilFloat(n: Word): nat {
    var f := FloatOf(n);
    f / CLUSTER_SIZE + if f % CLUSTER_SIZE != 0 then 1 else 0
  }

  /** The cluster count, which the driver keeps in 16 bits. */
  function NeededClusters(n: Word): Half {
    CeilFloat(n) % 0x1_0000
  }

  /** The spacing is a power of two, at most 256 for a 32-bit value. */
  lemma {:induction false} UlpValue(n: Word)
    ensures Ulp(n) ==
      if n < 0x100_0000 then 1
      else if n < 0x200_0000 then 2
      else if n < 0x400_0000 then 4
      else if n < 0x800_0000 then 8
      else if n < 0x1000_0000 then 16
      else if n < 0x2000_0000 then 32
      else if n < 0x4000_0000 then 64
      else if n < 0x8000_0000 then 128
      else 256
  {
    if n >= 0x100_0000 {
      UlpValue(n / 2);
    }
  }

  lemma DivMod(n: nat, d: nat)
    requires d > 0
    ensures n == n / d * d + n % d
  {
  }

  lemma Regroup(k: nat, w: nat, u: nat, m: nat)
    requires u * m == CLUSTER_SIZE
    ensures (k * m + w) * u == CLUSTER_SIZE * k + w * u
  {
    calc {
      (k * m + w) * u;
      k * m * u + w * u;
      k * (u * m) + w * u;
      CLUSTER_SIZE * k + w * u;
    }
  }

  /** `n` split along the rounding unit `u` and the cluster size `u * m`. */
  lemma SplitAlong(n: nat, u: nat, m: nat) returns (k: nat, w: nat, r: nat)
    requires u > 0 && m > 0 && u * m == CLUSTER_SIZE
    ensures n / u == k * m + w && n % u == r && w < m && r < u
    ensures n / u * u == CLUSTER_SIZE * k + w * u
    ensures w * u + u <= CLUSTER_SIZE && n == CLUSTER_SIZE * k + (w * u + r)
  {
    var q := n / u;
    r := n % u;
    DivMod(n, u);
    k, w := SplitQuotient(q, u, m);
  }

  lemma SplitQuotient(q: nat, u: nat, m: nat) returns (k: nat, w: nat)
    requires m > 0 && u * m == CLUSTER_SIZE
    ensures q == k * m + w && w < m && q * u == CLUSTER_SIZE * k + w * u && w * u + u <= CLUSTER_SIZE
  {
    k, w := q / m, q % m;
    DivMod(q, m);
    Regroup(k, w, u, m);
    OneMore(w, u, m);
  }

  lemma OneMore(w: nat, u: nat, m: nat)
    requires w < m && u * m == CLUSTER_SIZE
    ensures w * u + u <= CLUSTER_SIZE
  {
    MulMonotone(w + 1, m, u);
    assert (w + 1) * u == w * u + u;
  }

  lemma MulMonotone(a: nat, b: nat, u: nat)
    requires a <= b
    ensures a * u <= b * u
  {
  }

  lemma EvenProduct(k: nat, m: nat)
    requires m % 2 == 0
    ensures (k * m) % 2 == 0
  {
    assert k * m == 2 * (k * (m / 2));
  }

  /** Rounding, on the parts of `n`: the products appear only as `t` and `f`. */
  lemma RoundedCeil(n: nat, k: nat, t: nat, r: nat, u: nat, f: nat, down: bool)
    requires t == 0 || t >= u
    requires r < u && t + u <= CLUSTER_SIZE
    requires n == CLUSTER_SIZE * k + t + r
    requires f == CLUSTER_SIZE * k + t + if down then 0 else u
    requires 2 * r < u ==> down
    requires 2 * r > u ==> !down
    requires t == 0 && 2 * r == u ==> down
    ensures f / CLUSTER_SIZE + (if f % CLUSTER_SIZE != 0 then 1 else 0) == CeilDiv(n, CLUSTER_SIZE)
      <==> !(0 < n % CLUSTER_SIZE && 2 * (n % CLUSTER_SIZE) <= u)
  {
    ClusterParts(n, k, t + r);
    if down {
      ClusterParts(f, k, t);
    } else if t + u == CLUSTER_SIZE {
      ClusterParts(f, k + 1, 0);
    } else {
      ClusterParts(f, k, t + u);
    }
  }

  lemma ClusterParts(n: nat, k: nat, y: nat)
    requires n == CLUSTER_SIZE * k + y && y < CLUSTER_SIZE
    ensures n / CLUSTER_SIZE == k && n % CLUSTER_SIZE == y && CeilDiv(n, CLUSTER_SIZE) == k + if y > 0 then 1 else 0
  {
  }

  lemma UlpDivides(n: Word) returns (m: nat)
    ensures Ulp(n) * m == CLUSTER_SIZE && m % 2 == 0 && m > 0
  {
    UlpValue(n);
    m := CLUSTER_SIZE / Ulp(n);
  }

  lemma {:induction false} FloatParts(n: Word, k: nat, w: nat, r: nat)
    requires n % Ulp(n) == r && n / Ulp(n) * Ulp(n) == CLUSTER_SIZE * k + w * Ulp(n)
    ensures FloatOf(n) == CLUSTER_SIZE * k + w * Ulp(n) + if RoundsDown(n) then 0 else Ulp(n)
  {
    var q, u := n / Ulp(n), Ulp(n);
    assert (q + 1) * u == q * u + u;
  }

  lemma FloatSplit(n: Word) returns (k: nat, t: nat, r: nat, u: nat, down: bool)
    ensures u == Ulp(n) && (t == 0 || t >= u) && r < u && t + u <= CLUSTER_SIZE
    ensures n == CLUSTER_SIZE * k + t + r
    ensures FloatOf(n) == CLUSTER_SIZE * k + t + if down then 0 else u
    ensures 2 * r < u ==> down
    ensures 2 * r > u ==> !down
    ensures t == 0 && 2 * r == u ==> down
  {
    u, down := Ulp(n), RoundsDown(n);
    var m := UlpDivides(n);
    var w: nat;
    k, w, r := SplitAlong(n, u, m);
    FloatParts(n, k, w, r);
    EvenProduct(k, m);
    if w > 0 { MulMonotone(1, w, u); }
    t := w * u;
  }

  /**
   The float computation counts clusters correctly except just above a multiple of the cluster
   size, where rounding loses the remainder.
   */
  lemma CeilFloatExact(n: Word)
    ensures CeilFloat(n) == CeilDiv(n, CLUSTER_SIZE)
      <==> !(0 < n % CLUSTER_SIZE && 2 * (n % CLUSTER_SIZE) <= Ulp(n))
  {
    var k, t, r, u, down := FloatSplit(n);
    RoundedCeil(n, k, t, r, u, FloatOf(n), down);
  }

  /** Up to 2^24 bytes (and so for every file that fits the disk) the count is the exact one. */
  lemma NeededExact(n: Word)
    requires n <= 0x100_0000
    ensures NeededClusters(n) == CeilDiv(n, CLUSTER_SIZE)
  {
    UlpValue(n);
    CeilFloatExact(n);
  }

  /** The smallest size whose count is wrong: 2^24 + 1 rounds down to 2^24. */
  lemma CeilFloatLosesAByte()
    ensures CeilFloat(0x100_0001) == 8192 && CeilDiv(0x100_0001, CLUSTER_SIZE) == 8193
  {
    UlpValue(0x100_0001);
  }

  /** The size one cluster short of 2^27 bytes is counted as 65535 clusters. */
  lemma CountOfEndless()
    ensures NeededClusters(0x7FF_F800) == 0xFFFF
  {
  }
}
