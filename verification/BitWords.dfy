/** Bitwise operations on natural numbers. */
module BitWords {

  function Pow2(k: nat): (p: nat)
    ensures p > 0
  {
    if k == 0 then 1 else 2 * Pow2(k - 1)
  }

  function Xor(a: nat, b: nat): nat
    decreases a
  {
    if a == 0 then b else if b == 0 then a
    else (if a % 2 == b % 2 then 0 else 1) + 2 * Xor(a / 2, b / 2)
  }

  function And(a: nat, b: nat): nat
    decreases a
  {
    if a == 0 || b == 0 then 0
    else (if a % 2 == 1 && b % 2 == 1 then 1 else 0) + 2 * And(a / 2, b / 2)
  }

  /** a >> k */
  function Shr(a: nat, k: nat): nat
    decreases k
  {
    if k == 0 then a else Shr(a / 2, k - 1)
  }

  /** The lowest `k` bits. */
  function Low(a: nat, k: nat): (r: nat)
    ensures r < Pow2(k)
    decreases k
  {
    if k == 0 then 0 else a % 2 + 2 * Low(a / 2, k - 1)
  }

  /** The other bits, in place. */
  function High(a: nat, k: nat): nat
    decreases k
  {
    if k == 0 then a else 2 * High(a / 2, k - 1)
  }

  lemma {:induction false} Halves(bit: nat, y: nat)
    requires bit < 2
    ensures (bit + 2 * y) % 2 == bit && (bit + 2 * y) / 2 == y
  {
  }

  lemma {:induction false} XorBit(a: nat, b: nat)
    ensures Xor(a, b) % 2 == (if a % 2 == b % 2 then 0 else 1)
    ensures Xor(a, b) / 2 == Xor(a / 2, b / 2)
  {
    Halves(if a % 2 == b % 2 then 0 else 1, Xor(a / 2, b / 2));
  }

  /** A number is the sum of two when its lowest bit and its half are. */
  lemma {:induction false} XorFromHalves(a: nat, b: nat, x: nat)
    requires x / 2 == Xor(a / 2, b / 2)
    requires x % 2 == 1 <==> (a % 2 == 1) != (b % 2 == 1)
    ensures x == Xor(a, b)
  {
    XorBit(a, b);
  }

  lemma {:induction false} XorCommutes(a: nat, b: nat)
    ensures Xor(a, b) == Xor(b, a)
    decreases a
  {
    if a > 0 {
      XorCommutes(a / 2, b / 2);
    }
  }

  lemma {:induction false} XorAssociates(a: nat, b: nat, c: nat)
    ensures Xor(Xor(a, b), c) == Xor(a, Xor(b, c))
    decreases a + b + c
  {
    if a > 0 && b > 0 && c > 0 {
      XorAssociates(a / 2, b / 2, c / 2);
      XorBit(a, b);
      XorBit(b, c);
      XorBit(Xor(a, b), c);
      XorBit(a, Xor(b, c));
    }
  }

  /** (a ^ p) ^ b == (a ^ b) ^ p */
  lemma {:induction false} XorSwaps(a: nat, p: nat, b: nat)
    ensures Xor(Xor(a, p), b) == Xor(Xor(a, b), p)
  {
    XorAssociates(a, p, b);
    XorCommutes(p, b);
    XorAssociates(a, b, p);
  }

  lemma {:induction false} XorSelf(a: nat)
    ensures Xor(a, a) == 0
  {
    if a > 0 {
      XorSelf(a / 2);
    }
  }

  /** (a ^ p) ^ (b ^ p) == a ^ b */
  lemma {:induction false} XorCancels(a: nat, b: nat, p: nat)
    ensures Xor(Xor(a, p), Xor(b, p)) == Xor(a, b)
  {
    XorSwaps(a, p, Xor(b, p));
    XorAssociates(a, Xor(b, p), p);
    XorAssociates(b, p, p);
    XorSelf(p);
    assert Xor(b, 0) == b;
  }

  lemma {:induction false} XorBelow(a: nat, b: nat, k: nat)
    requires a < Pow2(k) && b < Pow2(k)
    ensures Xor(a, b) < Pow2(k)
    decreases k
  {
    if a > 0 && b > 0 {
      XorBelow(a / 2, b / 2, k - 1);
    }
  }

  lemma {:induction false} XorShr(a: nat, b: nat, k: nat)
    ensures Shr(Xor(a, b), k) == Xor(Shr(a, k), Shr(b, k))
    decreases k
  {
    if k > 0 {
      XorShr(a / 2, b / 2, k - 1);
      XorBit(a, b);
    }
  }

  lemma {:induction false} PartHalves(a: nat, k: nat)
    requires k > 0
    ensures Low(a, k) % 2 == a % 2 && Low(a, k) / 2 == Low(a / 2, k - 1)
    ensures High(a, k) % 2 == 0 && High(a, k) / 2 == High(a / 2, k - 1)
  {
    Halves(a % 2, Low(a / 2, k - 1));
    Halves(0, High(a / 2, k - 1));
  }

  lemma {:induction false} XorLow(a: nat, b: nat, k: nat)
    ensures Low(Xor(a, b), k) == Xor(Low(a, k), Low(b, k))
    decreases k
  {
    if k > 0 {
      XorLow(a / 2, b / 2, k - 1);
      XorBit(a, b);
      PartHalves(a, k);
      PartHalves(b, k);
      PartHalves(Xor(a, b), k);
      XorFromHalves(Low(a, k), Low(b, k), Low(Xor(a, b), k));
    }
  }

  lemma {:induction false} HighAndLow(a: nat, k: nat)
    ensures a == Xor(High(a, k), Low(a, k))
    decreases k
  {
    if k > 0 {
      HighAndLow(a / 2, k - 1);
      PartHalves(a, k);
      XorFromHalves(High(a, k), Low(a, k), a);
    }
  }

  lemma {:induction false} ShrOfSmall(a: nat, k: nat)
    requires a < Pow2(k)
    ensures Shr(a, k) == 0 && Low(a, k) == a
    decreases k
  {
    if k > 0 {
      ShrOfSmall(a / 2, k - 1);
    }
  }

  /** Adding all ones complements. */
  lemma {:induction false} XorOnes(a: nat, k: nat)
    requires a < Pow2(k)
    ensures Xor(a, Pow2(k) - 1) == Pow2(k) - 1 - a
    decreases k
  {
    if a > 0 {
      XorOnes(a / 2, k - 1);
      assert (Pow2(k) - 1) / 2 == Pow2(k - 1) - 1;
    }
  }

  /** Masking with `k` ones keeps the lowest `k` bits. */
  lemma {:induction false} AndOnes(a: nat, k: nat)
    ensures And(a, Pow2(k) - 1) == Low(a, k)
    decreases k
  {
    if a == 0 {
      ShrOfSmall(0, k);
    } else if k > 0 {
      AndOnes(a / 2, k - 1);
      assert (Pow2(k) - 1) / 2 == Pow2(k - 1) - 1;
    }
  }

  /** A bit above all others adds. */
  lemma {:induction false} TopBitAdds(k: nat, i: nat)
    requires i < Pow2(k)
    ensures Xor(Pow2(k), i) == Pow2(k) + i
    decreases k
  {
    if i > 0 {
      TopBitAdds(k - 1, i / 2);
    }
  }

  // ----- hexadecimal digits

  function Differ(i: nat, j: nat): nat {
    if i == j then 0 else 1
  }

  /** One more bit at the end of both numbers. */
  lemma {:induction false} XorCons(a: nat, b: nat, i: nat, j: nat, x: nat, y: nat)
    requires i < 2 && j < 2 && x == 2 * a + i && y == 2 * b + j
    ensures Xor(x, y) == 2 * Xor(a, b) + Differ(i, j)
  {
    Halves(i, a);
    Halves(j, b);
    XorBit(x, y);
  }

  /** Two more bits. */
  lemma {:induction false} XorCons2(a: nat, b: nat, i1: nat, i0: nat, j1: nat, j0: nat, u: nat, v: nat, x: nat, y: nat)
    requires i1 < 2 && i0 < 2 && j1 < 2 && j0 < 2
    requires u == 2 * a + i1 && v == 2 * b + j1 && x == 2 * u + i0 && y == 2 * v + j0
    ensures Xor(x, y) == 4 * Xor(a, b) + 2 * Differ(i1, j1) + Differ(i0, j0)
  {
    XorCons(a, b, i1, j1, u, v);
    XorCons(u, v, i0, j0, x, y);
  }

  lemma {:induction false} FourBits(i: nat) returns (i3: nat, i2: nat, i1: nat, i0: nat)
    requires i < 16
    ensures i3 < 2 && i2 < 2 && i1 < 2 && i0 < 2 && i == 8 * i3 + 4 * i2 + 2 * i1 + i0
  {
    i3, i2, i1, i0 := i / 8, i / 4 % 2, i / 2 % 2, i % 2;
  }

  /** Hexadecimal digits add one by one. */
  lemma {:induction false} XorHex(a: nat, i: nat, b: nat, j: nat)
    requires i < 16 && j < 16
    ensures Xor(16 * a + i, 16 * b + j) == 16 * Xor(a, b) + Xor(i, j)
  {
    var i3, i2, i1, i0 := FourBits(i);
    var j3, j2, j1, j0 := FourBits(j);
    XorHexBits(a, i3, i2, i1, i0, b, j3, j2, j1, j0, 16 * a + i, 16 * b + j);
    XorHexBits(0, i3, i2, i1, i0, 0, j3, j2, j1, j0, i, j);
  }

  lemma {:induction false} XorHexBits(a: nat, i3: nat, i2: nat, i1: nat, i0: nat, b: nat, j3: nat, j2: nat, j1: nat, j0: nat, x: nat, y: nat)
    requires i3 < 2 && i2 < 2 && i1 < 2 && i0 < 2 && j3 < 2 && j2 < 2 && j1 < 2 && j0 < 2
    requires x == 16 * a + 8 * i3 + 4 * i2 + 2 * i1 + i0 && y == 16 * b + 8 * j3 + 4 * j2 + 2 * j1 + j0
    ensures Xor(x, y) == 16 * Xor(a, b) + 8 * Differ(i3, j3) + 4 * Differ(i2, j2) + 2 * Differ(i1, j1) + Differ(i0, j0)
  {
    var p, q := 4 * a + 2 * i3 + i2, 4 * b + 2 * j3 + j2;
    XorCons2(a, b, i3, i2, j3, j2, 2 * a + i3, 2 * b + j3, p, q);
    XorCons2(p, q, i1, i0, j1, j0, 2 * p + i1, 2 * q + j1, x, y);
  }

  // ----- shifts and masks of fixed size, as divisions

  lemma {:induction false} ShrMore(a: nat, i: nat, j: nat)
    ensures Shr(a, i + j) == Shr(Shr(a, i), j)
    decreases i
  {
    if i > 0 {
      ShrMore(a / 2, i - 1, j);
    }
  }

  lemma {:induction false} Shr4(a: nat)
    ensures Shr(a, 4) == a / 16
  {
  }

  /** a >> 16 */
  lemma {:induction false} Shr16(a: nat)
    ensures Shr(a, 16) == a / 0x1_0000
  {
    ShrMore(a, 4, 4);
    ShrMore(a, 8, 4);
    ShrMore(a, 12, 4);
    Shr4(a);
    Shr4(a / 16);
    Shr4(a / 256);
    Shr4(a / 4096);
  }

  lemma {:induction false} LowIsMod(a: nat, k: nat, q: nat, r: nat)
    requires a == Pow2(k) * q + r && r < Pow2(k)
    ensures Low(a, k) == r
    decreases k
  {
    if k > 0 {
      var p := Pow2(k - 1);
      assert Pow2(k) * q == 2 * (p * q);
      Halves(r % 2, p * q + r / 2);
      LowIsMod(a / 2, k - 1, q, r / 2);
    }
  }
}
