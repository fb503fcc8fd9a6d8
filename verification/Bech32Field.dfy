/**
 * The field of 1024 elements in which the Bech32 generator has its roots, as ten bits: e is multiplication by the
 * field's generator, a linear map of period 1023 that moves every nonzero element round one circle.
 */
module Bech32Field {
  import opened Bech32Code

  /** A linear map on ten bits, by the images of the single bits. */
  datatype Mat = Mat(k0: bv32, k1: bv32, k2: bv32, k3: bv32, k4: bv32, k5: bv32, k6: bv32, k7: bv32, k8: bv32, k9: bv32)

  function Ap(m: Mat, v: bv32): bv32 {
    var r0 := AddIf(0, v, 1, m.k0);
    var r1 := AddIf(r0, v, 2, m.k1);
    var r2 := AddIf(r1, v, 4, m.k2);
    var r3 := AddIf(r2, v, 8, m.k3);
    var r4 := AddIf(r3, v, 16, m.k4);
    var r5 := AddIf(r4, v, 32, m.k5);
    var r6 := AddIf(r5, v, 64, m.k6);
    var r7 := AddIf(r6, v, 128, m.k7);
    var r8 := AddIf(r7, v, 256, m.k8);
    AddIf(r8, v, 512, m.k9)
  }

  /** One map after the other. */
  function Times(m: Mat, n: Mat): Mat {
    Mat(Ap(m, n.k0), Ap(m, n.k1), Ap(m, n.k2), Ap(m, n.k3), Ap(m, n.k4),
        Ap(m, n.k5), Ap(m, n.k6), Ap(m, n.k7), Ap(m, n.k8), Ap(m, n.k9))
  }

  // ---- such maps are linear ----

  lemma ApLinear(m: Mat, v: bv32, w: bv32)
    ensures Ap(m, Xor(v, w)) == Xor(Ap(m, v), Ap(m, w))
  {
    hide AddIf, Xor;
    XorSelf(0);
    AddIfLinear(0, 0, v, w, 1, m.k0);
    var a0, b0 := AddIf(0, v, 1, m.k0), AddIf(0, w, 1, m.k0);
    AddIfLinear(a0, b0, v, w, 2, m.k1);
    var a1, b1 := AddIf(a0, v, 2, m.k1), AddIf(b0, w, 2, m.k1);
    AddIfLinear(a1, b1, v, w, 4, m.k2);
    var a2, b2 := AddIf(a1, v, 4, m.k2), AddIf(b1, w, 4, m.k2);
    AddIfLinear(a2, b2, v, w, 8, m.k3);
    var a3, b3 := AddIf(a2, v, 8, m.k3), AddIf(b2, w, 8, m.k3);
    AddIfLinear(a3, b3, v, w, 16, m.k4);
    var a4, b4 := AddIf(a3, v, 16, m.k4), AddIf(b3, w, 16, m.k4);
    AddIfLinear(a4, b4, v, w, 32, m.k5);
    var a5, b5 := AddIf(a4, v, 32, m.k5), AddIf(b4, w, 32, m.k5);
    AddIfLinear(a5, b5, v, w, 64, m.k6);
    var a6, b6 := AddIf(a5, v, 64, m.k6), AddIf(b5, w, 64, m.k6);
    AddIfLinear(a6, b6, v, w, 128, m.k7);
    var a7, b7 := AddIf(a6, v, 128, m.k7), AddIf(b6, w, 128, m.k7);
    AddIfLinear(a7, b7, v, w, 256, m.k8);
    var a8, b8 := AddIf(a7, v, 256, m.k8), AddIf(b7, w, 256, m.k8);
    AddIfLinear(a8, b8, v, w, 512, m.k9);
  }

  lemma ApZero(m: Mat)
    ensures Ap(m, 0) == 0
  {
    ApLinear(m, 0, 0);
    XorSelf(0);
    XorSelf(Ap(m, 0));
  }

  lemma ApAddIf(m: Mat, r: bv32, v: bv32, bit: bv32, k: bv32)
    ensures Ap(m, AddIf(r, v, bit, k)) == AddIf(Ap(m, r), v, bit, Ap(m, k))
  {
    hide Ap;
    ApLinear(m, r, k);
  }

  lemma ApTimes(m: Mat, n: Mat, v: bv32)
    ensures Ap(m, Ap(n, v)) == Ap(Times(m, n), v)
  {
    hide AddIf;
    ApZero(m);
    ApSteps(m, n, v);
  }

  lemma ApSteps(m: Mat, n: Mat, v: bv32)
    requires Ap(m, 0) == 0
    ensures Ap(m, Ap(n, v)) == Ap(Times(m, n), v)
  {
    var r0 := AddIf(0, v, 1, n.k0);
    var r1 := AddIf(r0, v, 2, n.k1);
    var r2 := AddIf(r1, v, 4, n.k2);
    var r3 := AddIf(r2, v, 8, n.k3);
    var r4 := AddIf(r3, v, 16, n.k4);
    var r5 := AddIf(r4, v, 32, n.k5);
    var r6 := AddIf(r5, v, 64, n.k6);
    var r7 := AddIf(r6, v, 128, n.k7);
    var r8 := AddIf(r7, v, 256, n.k8);
    var t := Times(m, n);
    assert Ap(n, v) == AddIf(r8, v, 512, n.k9);
    var s0 := AddIf(0, v, 1, t.k0);
    var s1 := AddIf(s0, v, 2, t.k1);
    var s2 := AddIf(s1, v, 4, t.k2);
    var s3 := AddIf(s2, v, 8, t.k3);
    var s4 := AddIf(s3, v, 16, t.k4);
    var s5 := AddIf(s4, v, 32, t.k5);
    var s6 := AddIf(s5, v, 64, t.k6);
    var s7 := AddIf(s6, v, 128, t.k7);
    var s8 := AddIf(s7, v, 256, t.k8);
    assert Ap(t, v) == AddIf(s8, v, 512, t.k9);
    hide AddIf, Ap;
    ApAddIf(m, 0, v, 1, n.k0);
    ApAddIf(m, r0, v, 2, n.k1);
    ApAddIf(m, r1, v, 4, n.k2);
    ApAddIf(m, r2, v, 8, n.k3);
    ApAddIf(m, r3, v, 16, n.k4);
    ApAddIf(m, r4, v, 32, n.k5);
    ApAddIf(m, r5, v, 64, n.k6);
    ApAddIf(m, r6, v, 128, n.k7);
    ApAddIf(m, r7, v, 256, n.k8);
    ApAddIf(m, r8, v, 512, n.k9);
  }

  // ---- the powers of e ----

  const M1 := Mat(0x020, 0x040, 0x080, 0x100, 0x200, 0x137, 0x247, 0x1ae, 0x35c, 0x3b1)
  const M2 := Mat(0x137, 0x247, 0x1ae, 0x35c, 0x3b1, 0x08b, 0x116, 0x205, 0x12a, 0x254)
  const M3 := Mat(0x08b, 0x116, 0x205, 0x12a, 0x254, 0x0ce, 0x19c, 0x311, 0x32b, 0x376)
  const M4 := Mat(0x0ce, 0x19c, 0x311, 0x32b, 0x376, 0x229, 0x172, 0x2cd, 0x0ba, 0x15d)
  const M5 := Mat(0x229, 0x172, 0x2cd, 0x0ba, 0x15d, 0x3a6, 0x26c, 0x1f8, 0x3d9, 0x2bb)
  const M7 := Mat(0x0b4, 0x141, 0x282, 0x024, 0x048, 0x219, 0x13b, 0x25f, 0x1b7, 0x347)
  const M8 := Mat(0x219, 0x13b, 0x25f, 0x1b7, 0x347, 0x091, 0x10b, 0x216, 0x125, 0x24a)
  const M13 := Mat(0x175, 0x2c3, 0x0a6, 0x14c, 0x298, 0x28c, 0x038, 0x059, 0x09b, 0x11f)
  const M15 := Mat(0x39f, 0x237, 0x167, 0x2ce, 0x0bc, 0x2a3, 0x066, 0x0cc, 0x198, 0x319)
  const M16 := Mat(0x2a3, 0x066, 0x0cc, 0x198, 0x319, 0x348, 0x3b0, 0x269, 0x1f2, 0x3cd)
  const M21 := Mat(0x3be, 0x275, 0x1e3, 0x3c6, 0x2ac, 0x3b4, 0x261, 0x1e2, 0x3c4, 0x2a8)
  const M29 := Mat(0x07c, 0x0d1, 0x18b, 0x316, 0x325, 0x0f0, 0x1c9, 0x392, 0x22d, 0x17a)
  const M31 := Mat(0x0de, 0x195, 0x303, 0x326, 0x36c, 0x029, 0x052, 0x08d, 0x11a, 0x21d)
  const M32 := Mat(0x029, 0x052, 0x08d, 0x11a, 0x21d, 0x017, 0x007, 0x00e, 0x01c, 0x011)
  const M33 := Mat(0x017, 0x007, 0x00e, 0x01c, 0x011, 0x2e0, 0x0e0, 0x1c0, 0x380, 0x220)
  const M37 := Mat(0x135, 0x243, 0x1a6, 0x34c, 0x3b8, 0x0cb, 0x196, 0x305, 0x32a, 0x374)
  const M63 := Mat(0x3d1, 0x2ab, 0x076, 0x0c5, 0x18a, 0x124, 0x248, 0x1b0, 0x349, 0x3b2)
  const M64 := Mat(0x124, 0x248, 0x1b0, 0x349, 0x3b2, 0x2eb, 0x0f6, 0x1c5, 0x38a, 0x234)
  const M85 := Mat(0x193, 0x30f, 0x33e, 0x375, 0x3e3, 0x092, 0x10d, 0x21a, 0x13d, 0x253)
  const M93 := Mat(0x356, 0x3a5, 0x26a, 0x1f4, 0x3c1, 0x06a, 0x0d4, 0x181, 0x302, 0x324)
  const M101 := Mat(0x247, 0x1ae, 0x35c, 0x3b1, 0x26b, 0x116, 0x205, 0x12a, 0x254, 0x1a1)
  const M127 := Mat(0x21b, 0x13f, 0x257, 0x1a7, 0x34e, 0x0d1, 0x18b, 0x316, 0x325, 0x36a)
  const M128 := Mat(0x0d1, 0x18b, 0x316, 0x325, 0x36a, 0x1c9, 0x392, 0x22d, 0x17a, 0x2dd)
  const M229 := Mat(0x303, 0x326, 0x36c, 0x3f8, 0x2f9, 0x08d, 0x11a, 0x21d, 0x133, 0x24f)
  const M255 := Mat(0x3c8, 0x2b0, 0x069, 0x0d2, 0x18d, 0x204, 0x128, 0x250, 0x1a9, 0x352)
  const M256 := Mat(0x204, 0x128, 0x250, 0x1a9, 0x352, 0x331, 0x36b, 0x3f6, 0x2e5, 0x0ea)
  const M341 := Mat(0x16d, 0x2da, 0x0bd, 0x153, 0x28f, 0x18c, 0x318, 0x339, 0x37b, 0x3ff)
  const M485 := Mat(0x123, 0x246, 0x1ac, 0x358, 0x3b9, 0x20b, 0x136, 0x245, 0x1aa, 0x354)
  const M511 := Mat(0x33b, 0x37f, 0x3f7, 0x2e7, 0x0ee, 0x2ba, 0x07d, 0x0d3, 0x18f, 0x31e)
  const M512 := Mat(0x2ba, 0x07d, 0x0d3, 0x18f, 0x31e, 0x068, 0x0d0, 0x189, 0x312, 0x32d)
  const M997 := Mat(0x1bd, 0x353, 0x3af, 0x27e, 0x1f5, 0x065, 0x0ca, 0x194, 0x301, 0x322)
  const M998 := Mat(0x065, 0x0ca, 0x194, 0x301, 0x322, 0x3d0, 0x2a9, 0x072, 0x0cd, 0x19a)
  const M999 := Mat(0x3d0, 0x2a9, 0x072, 0x0cd, 0x19a, 0x104, 0x208, 0x130, 0x249, 0x1b2)
  const M1023 := Mat(0x001, 0x002, 0x004, 0x008, 0x010, 0x020, 0x040, 0x080, 0x100, 0x200)

  /** Multiplication by the n-th power of e. */
  function Iter(n: nat, v: bv32): bv32 {
    if n == 0 then v else Ap(M1, Iter(n - 1, v))
  }

  lemma {:induction false} IterSum(a: nat, b: nat, v: bv32)
    ensures Iter(a + b, v) == Iter(a, Iter(b, v))
  {
    hide Ap;
    if a > 0 {
      IterSum(a - 1, b, v);
    }
  }

  lemma {:induction false} IterLinear(n: nat, v: bv32, w: bv32)
    ensures Iter(n, Xor(v, w)) == Xor(Iter(n, v), Iter(n, w))
  {
    hide Ap, Xor;
    if n > 0 {
      IterLinear(n - 1, v, w);
      ApLinear(M1, Iter(n - 1, v), Iter(n - 1, w));
    }
  }

  ghost predicate IsPower(n: nat, m: Mat) {
    forall v :: Iter(n, v) == Ap(m, v)
  }

  lemma PowerOne()
    ensures IsPower(1, M1)
  {
    hide Ap;
    forall v ensures Iter(1, v) == Ap(M1, v)
    {
      assert Iter(0, v) == v;
    }
  }

  lemma PowerSum(a: nat, ma: Mat, b: nat, mb: Mat, mc: Mat)
    requires IsPower(a, ma) && IsPower(b, mb) && Times(ma, mb) == mc
    ensures IsPower(a + b, mc)
  {
    hide Ap, Iter;
    forall v ensures Iter(a + b, v) == Ap(mc, v)
    {
      IterSum(a, b, v);
      ApTimes(ma, mb, v);
    }
  }

  lemma Product2()
    ensures Times(M1, M1) == M2
  {
    assert Ap(M1, M1.k0) == M2.k0 && Ap(M1, M1.k1) == M2.k1 && Ap(M1, M1.k2) == M2.k2;
    assert Ap(M1, M1.k3) == M2.k3 && Ap(M1, M1.k4) == M2.k4 && Ap(M1, M1.k5) == M2.k5;
    assert Ap(M1, M1.k6) == M2.k6 && Ap(M1, M1.k7) == M2.k7;
    assert Ap(M1, M1.k8) == M2.k8 && Ap(M1, M1.k9) == M2.k9;
  }

  lemma Product4()
    ensures Times(M2, M2) == M4
  {
    assert Ap(M2, M2.k0) == M4.k0 && Ap(M2, M2.k1) == M4.k1 && Ap(M2, M2.k2) == M4.k2;
    assert Ap(M2, M2.k3) == M4.k3 && Ap(M2, M2.k4) == M4.k4 && Ap(M2, M2.k5) == M4.k5;
    assert Ap(M2, M2.k6) == M4.k6 && Ap(M2, M2.k7) == M4.k7;
    assert Ap(M2, M2.k8) == M4.k8 && Ap(M2, M2.k9) == M4.k9;
  }

  lemma Product8()
    ensures Times(M4, M4) == M8
  {
    assert Ap(M4, M4.k0) == M8.k0 && Ap(M4, M4.k1) == M8.k1 && Ap(M4, M4.k2) == M8.k2;
    assert Ap(M4, M4.k3) == M8.k3 && Ap(M4, M4.k4) == M8.k4 && Ap(M4, M4.k5) == M8.k5;
    assert Ap(M4, M4.k6) == M8.k6 && Ap(M4, M4.k7) == M8.k7;
    assert Ap(M4, M4.k8) == M8.k8 && Ap(M4, M4.k9) == M8.k9;
  }

  lemma Product16()
    ensures Times(M8, M8) == M16
  {
    assert Ap(M8, M8.k0) == M16.k0 && Ap(M8, M8.k1) == M16.k1 && Ap(M8, M8.k2) == M16.k2;
    assert Ap(M8, M8.k3) == M16.k3 && Ap(M8, M8.k4) == M16.k4 && Ap(M8, M8.k5) == M16.k5;
    assert Ap(M8, M8.k6) == M16.k6 && Ap(M8, M8.k7) == M16.k7;
    assert Ap(M8, M8.k8) == M16.k8 && Ap(M8, M8.k9) == M16.k9;
  }

  lemma Product32()
    ensures Times(M16, M16) == M32
  {
    assert Ap(M16, M16.k0) == M32.k0 && Ap(M16, M16.k1) == M32.k1 && Ap(M16, M16.k2) == M32.k2;
    assert Ap(M16, M16.k3) == M32.k3 && Ap(M16, M16.k4) == M32.k4 && Ap(M16, M16.k5) == M32.k5;
    assert Ap(M16, M16.k6) == M32.k6 && Ap(M16, M16.k7) == M32.k7;
    assert Ap(M16, M16.k8) == M32.k8 && Ap(M16, M16.k9) == M32.k9;
  }

  lemma Product64()
    ensures Times(M32, M32) == M64
  {
    assert Ap(M32, M32.k0) == M64.k0 && Ap(M32, M32.k1) == M64.k1 && Ap(M32, M32.k2) == M64.k2;
    assert Ap(M32, M32.k3) == M64.k3 && Ap(M32, M32.k4) == M64.k4 && Ap(M32, M32.k5) == M64.k5;
    assert Ap(M32, M32.k6) == M64.k6 && Ap(M32, M32.k7) == M64.k7;
    assert Ap(M32, M32.k8) == M64.k8 && Ap(M32, M32.k9) == M64.k9;
  }

  lemma Product128()
    ensures Times(M64, M64) == M128
  {
    assert Ap(M64, M64.k0) == M128.k0 && Ap(M64, M64.k1) == M128.k1 && Ap(M64, M64.k2) == M128.k2;
    assert Ap(M64, M64.k3) == M128.k3 && Ap(M64, M64.k4) == M128.k4 && Ap(M64, M64.k5) == M128.k5;
    assert Ap(M64, M64.k6) == M128.k6 && Ap(M64, M64.k7) == M128.k7;
    assert Ap(M64, M64.k8) == M128.k8 && Ap(M64, M64.k9) == M128.k9;
  }

  lemma Product256()
    ensures Times(M128, M128) == M256
  {
    assert Ap(M128, M128.k0) == M256.k0 && Ap(M128, M128.k1) == M256.k1 && Ap(M128, M128.k2) == M256.k2;
    assert Ap(M128, M128.k3) == M256.k3 && Ap(M128, M128.k4) == M256.k4 && Ap(M128, M128.k5) == M256.k5;
    assert Ap(M128, M128.k6) == M256.k6 && Ap(M128, M128.k7) == M256.k7;
    assert Ap(M128, M128.k8) == M256.k8 && Ap(M128, M128.k9) == M256.k9;
  }

  lemma Product512()
    ensures Times(M256, M256) == M512
  {
    assert Ap(M256, M256.k0) == M512.k0 && Ap(M256, M256.k1) == M512.k1 && Ap(M256, M256.k2) == M512.k2;
    assert Ap(M256, M256.k3) == M512.k3 && Ap(M256, M256.k4) == M512.k4 && Ap(M256, M256.k5) == M512.k5;
    assert Ap(M256, M256.k6) == M512.k6 && Ap(M256, M256.k7) == M512.k7;
    assert Ap(M256, M256.k8) == M512.k8 && Ap(M256, M256.k9) == M512.k9;
  }

  lemma Product3()
    ensures Times(M2, M1) == M3
  {
    assert Ap(M2, M1.k0) == M3.k0 && Ap(M2, M1.k1) == M3.k1 && Ap(M2, M1.k2) == M3.k2;
    assert Ap(M2, M1.k3) == M3.k3 && Ap(M2, M1.k4) == M3.k4 && Ap(M2, M1.k5) == M3.k5;
    assert Ap(M2, M1.k6) == M3.k6 && Ap(M2, M1.k7) == M3.k7;
    assert Ap(M2, M1.k8) == M3.k8 && Ap(M2, M1.k9) == M3.k9;
  }

  lemma Product7()
    ensures Times(M4, M3) == M7
  {
    assert Ap(M4, M3.k0) == M7.k0 && Ap(M4, M3.k1) == M7.k1 && Ap(M4, M3.k2) == M7.k2;
    assert Ap(M4, M3.k3) == M7.k3 && Ap(M4, M3.k4) == M7.k4 && Ap(M4, M3.k5) == M7.k5;
    assert Ap(M4, M3.k6) == M7.k6 && Ap(M4, M3.k7) == M7.k7;
    assert Ap(M4, M3.k8) == M7.k8 && Ap(M4, M3.k9) == M7.k9;
  }

  lemma Product15()
    ensures Times(M8, M7) == M15
  {
    assert Ap(M8, M7.k0) == M15.k0 && Ap(M8, M7.k1) == M15.k1 && Ap(M8, M7.k2) == M15.k2;
    assert Ap(M8, M7.k3) == M15.k3 && Ap(M8, M7.k4) == M15.k4 && Ap(M8, M7.k5) == M15.k5;
    assert Ap(M8, M7.k6) == M15.k6 && Ap(M8, M7.k7) == M15.k7;
    assert Ap(M8, M7.k8) == M15.k8 && Ap(M8, M7.k9) == M15.k9;
  }

  lemma Product31()
    ensures Times(M16, M15) == M31
  {
    assert Ap(M16, M15.k0) == M31.k0 && Ap(M16, M15.k1) == M31.k1 && Ap(M16, M15.k2) == M31.k2;
    assert Ap(M16, M15.k3) == M31.k3 && Ap(M16, M15.k4) == M31.k4 && Ap(M16, M15.k5) == M31.k5;
    assert Ap(M16, M15.k6) == M31.k6 && Ap(M16, M15.k7) == M31.k7;
    assert Ap(M16, M15.k8) == M31.k8 && Ap(M16, M15.k9) == M31.k9;
  }

  lemma Product63()
    ensures Times(M32, M31) == M63
  {
    assert Ap(M32, M31.k0) == M63.k0 && Ap(M32, M31.k1) == M63.k1 && Ap(M32, M31.k2) == M63.k2;
    assert Ap(M32, M31.k3) == M63.k3 && Ap(M32, M31.k4) == M63.k4 && Ap(M32, M31.k5) == M63.k5;
    assert Ap(M32, M31.k6) == M63.k6 && Ap(M32, M31.k7) == M63.k7;
    assert Ap(M32, M31.k8) == M63.k8 && Ap(M32, M31.k9) == M63.k9;
  }

  lemma Product127()
    ensures Times(M64, M63) == M127
  {
    assert Ap(M64, M63.k0) == M127.k0 && Ap(M64, M63.k1) == M127.k1 && Ap(M64, M63.k2) == M127.k2;
    assert Ap(M64, M63.k3) == M127.k3 && Ap(M64, M63.k4) == M127.k4 && Ap(M64, M63.k5) == M127.k5;
    assert Ap(M64, M63.k6) == M127.k6 && Ap(M64, M63.k7) == M127.k7;
    assert Ap(M64, M63.k8) == M127.k8 && Ap(M64, M63.k9) == M127.k9;
  }

  lemma Product255()
    ensures Times(M128, M127) == M255
  {
    assert Ap(M128, M127.k0) == M255.k0 && Ap(M128, M127.k1) == M255.k1 && Ap(M128, M127.k2) == M255.k2;
    assert Ap(M128, M127.k3) == M255.k3 && Ap(M128, M127.k4) == M255.k4 && Ap(M128, M127.k5) == M255.k5;
    assert Ap(M128, M127.k6) == M255.k6 && Ap(M128, M127.k7) == M255.k7;
    assert Ap(M128, M127.k8) == M255.k8 && Ap(M128, M127.k9) == M255.k9;
  }

  lemma Product511()
    ensures Times(M256, M255) == M511
  {
    assert Ap(M256, M255.k0) == M511.k0 && Ap(M256, M255.k1) == M511.k1 && Ap(M256, M255.k2) == M511.k2;
    assert Ap(M256, M255.k3) == M511.k3 && Ap(M256, M255.k4) == M511.k4 && Ap(M256, M255.k5) == M511.k5;
    assert Ap(M256, M255.k6) == M511.k6 && Ap(M256, M255.k7) == M511.k7;
    assert Ap(M256, M255.k8) == M511.k8 && Ap(M256, M255.k9) == M511.k9;
  }

  lemma Product1023()
    ensures Times(M512, M511) == M1023
  {
    assert Ap(M512, M511.k0) == M1023.k0 && Ap(M512, M511.k1) == M1023.k1 && Ap(M512, M511.k2) == M1023.k2;
    assert Ap(M512, M511.k3) == M1023.k3 && Ap(M512, M511.k4) == M1023.k4 && Ap(M512, M511.k5) == M1023.k5;
    assert Ap(M512, M511.k6) == M1023.k6 && Ap(M512, M511.k7) == M1023.k7;
    assert Ap(M512, M511.k8) == M1023.k8 && Ap(M512, M511.k9) == M1023.k9;
  }

  lemma Product33()
    ensures Times(M32, M1) == M33
  {
    assert Ap(M32, M1.k0) == M33.k0 && Ap(M32, M1.k1) == M33.k1 && Ap(M32, M1.k2) == M33.k2;
    assert Ap(M32, M1.k3) == M33.k3 && Ap(M32, M1.k4) == M33.k4 && Ap(M32, M1.k5) == M33.k5;
    assert Ap(M32, M1.k6) == M33.k6 && Ap(M32, M1.k7) == M33.k7;
    assert Ap(M32, M1.k8) == M33.k8 && Ap(M32, M1.k9) == M33.k9;
  }

  lemma Product5()
    ensures Times(M4, M1) == M5
  {
    assert Ap(M4, M1.k0) == M5.k0 && Ap(M4, M1.k1) == M5.k1 && Ap(M4, M1.k2) == M5.k2;
    assert Ap(M4, M1.k3) == M5.k3 && Ap(M4, M1.k4) == M5.k4 && Ap(M4, M1.k5) == M5.k5;
    assert Ap(M4, M1.k6) == M5.k6 && Ap(M4, M1.k7) == M5.k7;
    assert Ap(M4, M1.k8) == M5.k8 && Ap(M4, M1.k9) == M5.k9;
  }

  lemma Product13()
    ensures Times(M8, M5) == M13
  {
    assert Ap(M8, M5.k0) == M13.k0 && Ap(M8, M5.k1) == M13.k1 && Ap(M8, M5.k2) == M13.k2;
    assert Ap(M8, M5.k3) == M13.k3 && Ap(M8, M5.k4) == M13.k4 && Ap(M8, M5.k5) == M13.k5;
    assert Ap(M8, M5.k6) == M13.k6 && Ap(M8, M5.k7) == M13.k7;
    assert Ap(M8, M5.k8) == M13.k8 && Ap(M8, M5.k9) == M13.k9;
  }

  lemma Product29()
    ensures Times(M16, M13) == M29
  {
    assert Ap(M16, M13.k0) == M29.k0 && Ap(M16, M13.k1) == M29.k1 && Ap(M16, M13.k2) == M29.k2;
    assert Ap(M16, M13.k3) == M29.k3 && Ap(M16, M13.k4) == M29.k4 && Ap(M16, M13.k5) == M29.k5;
    assert Ap(M16, M13.k6) == M29.k6 && Ap(M16, M13.k7) == M29.k7;
    assert Ap(M16, M13.k8) == M29.k8 && Ap(M16, M13.k9) == M29.k9;
  }

  lemma Product93()
    ensures Times(M64, M29) == M93
  {
    assert Ap(M64, M29.k0) == M93.k0 && Ap(M64, M29.k1) == M93.k1 && Ap(M64, M29.k2) == M93.k2;
    assert Ap(M64, M29.k3) == M93.k3 && Ap(M64, M29.k4) == M93.k4 && Ap(M64, M29.k5) == M93.k5;
    assert Ap(M64, M29.k6) == M93.k6 && Ap(M64, M29.k7) == M93.k7;
    assert Ap(M64, M29.k8) == M93.k8 && Ap(M64, M29.k9) == M93.k9;
  }

  lemma Product21()
    ensures Times(M16, M5) == M21
  {
    assert Ap(M16, M5.k0) == M21.k0 && Ap(M16, M5.k1) == M21.k1 && Ap(M16, M5.k2) == M21.k2;
    assert Ap(M16, M5.k3) == M21.k3 && Ap(M16, M5.k4) == M21.k4 && Ap(M16, M5.k5) == M21.k5;
    assert Ap(M16, M5.k6) == M21.k6 && Ap(M16, M5.k7) == M21.k7;
    assert Ap(M16, M5.k8) == M21.k8 && Ap(M16, M5.k9) == M21.k9;
  }

  lemma Product85()
    ensures Times(M64, M21) == M85
  {
    assert Ap(M64, M21.k0) == M85.k0 && Ap(M64, M21.k1) == M85.k1 && Ap(M64, M21.k2) == M85.k2;
    assert Ap(M64, M21.k3) == M85.k3 && Ap(M64, M21.k4) == M85.k4 && Ap(M64, M21.k5) == M85.k5;
    assert Ap(M64, M21.k6) == M85.k6 && Ap(M64, M21.k7) == M85.k7;
    assert Ap(M64, M21.k8) == M85.k8 && Ap(M64, M21.k9) == M85.k9;
  }

  lemma Product341()
    ensures Times(M256, M85) == M341
  {
    assert Ap(M256, M85.k0) == M341.k0 && Ap(M256, M85.k1) == M341.k1 && Ap(M256, M85.k2) == M341.k2;
    assert Ap(M256, M85.k3) == M341.k3 && Ap(M256, M85.k4) == M341.k4 && Ap(M256, M85.k5) == M341.k5;
    assert Ap(M256, M85.k6) == M341.k6 && Ap(M256, M85.k7) == M341.k7;
    assert Ap(M256, M85.k8) == M341.k8 && Ap(M256, M85.k9) == M341.k9;
  }

  lemma Product37()
    ensures Times(M32, M5) == M37
  {
    assert Ap(M32, M5.k0) == M37.k0 && Ap(M32, M5.k1) == M37.k1 && Ap(M32, M5.k2) == M37.k2;
    assert Ap(M32, M5.k3) == M37.k3 && Ap(M32, M5.k4) == M37.k4 && Ap(M32, M5.k5) == M37.k5;
    assert Ap(M32, M5.k6) == M37.k6 && Ap(M32, M5.k7) == M37.k7;
    assert Ap(M32, M5.k8) == M37.k8 && Ap(M32, M5.k9) == M37.k9;
  }

  lemma Product101()
    ensures Times(M64, M37) == M101
  {
    assert Ap(M64, M37.k0) == M101.k0 && Ap(M64, M37.k1) == M101.k1 && Ap(M64, M37.k2) == M101.k2;
    assert Ap(M64, M37.k3) == M101.k3 && Ap(M64, M37.k4) == M101.k4 && Ap(M64, M37.k5) == M101.k5;
    assert Ap(M64, M37.k6) == M101.k6 && Ap(M64, M37.k7) == M101.k7;
    assert Ap(M64, M37.k8) == M101.k8 && Ap(M64, M37.k9) == M101.k9;
  }

  lemma Product229()
    ensures Times(M128, M101) == M229
  {
    assert Ap(M128, M101.k0) == M229.k0 && Ap(M128, M101.k1) == M229.k1 && Ap(M128, M101.k2) == M229.k2;
    assert Ap(M128, M101.k3) == M229.k3 && Ap(M128, M101.k4) == M229.k4 && Ap(M128, M101.k5) == M229.k5;
    assert Ap(M128, M101.k6) == M229.k6 && Ap(M128, M101.k7) == M229.k7;
    assert Ap(M128, M101.k8) == M229.k8 && Ap(M128, M101.k9) == M229.k9;
  }

  lemma Product485()
    ensures Times(M256, M229) == M485
  {
    assert Ap(M256, M229.k0) == M485.k0 && Ap(M256, M229.k1) == M485.k1 && Ap(M256, M229.k2) == M485.k2;
    assert Ap(M256, M229.k3) == M485.k3 && Ap(M256, M229.k4) == M485.k4 && Ap(M256, M229.k5) == M485.k5;
    assert Ap(M256, M229.k6) == M485.k6 && Ap(M256, M229.k7) == M485.k7;
    assert Ap(M256, M229.k8) == M485.k8 && Ap(M256, M229.k9) == M485.k9;
  }

  lemma Product997()
    ensures Times(M512, M485) == M997
  {
    assert Ap(M512, M485.k0) == M997.k0 && Ap(M512, M485.k1) == M997.k1 && Ap(M512, M485.k2) == M997.k2;
    assert Ap(M512, M485.k3) == M997.k3 && Ap(M512, M485.k4) == M997.k4 && Ap(M512, M485.k5) == M997.k5;
    assert Ap(M512, M485.k6) == M997.k6 && Ap(M512, M485.k7) == M997.k7;
    assert Ap(M512, M485.k8) == M997.k8 && Ap(M512, M485.k9) == M997.k9;
  }

  lemma Product998()
    ensures Times(M1, M997) == M998
  {
    assert Ap(M1, M997.k0) == M998.k0 && Ap(M1, M997.k1) == M998.k1 && Ap(M1, M997.k2) == M998.k2;
    assert Ap(M1, M997.k3) == M998.k3 && Ap(M1, M997.k4) == M998.k4 && Ap(M1, M997.k5) == M998.k5;
    assert Ap(M1, M997.k6) == M998.k6 && Ap(M1, M997.k7) == M998.k7;
    assert Ap(M1, M997.k8) == M998.k8 && Ap(M1, M997.k9) == M998.k9;
  }

  lemma Product999()
    ensures Times(M1, M998) == M999
  {
    assert Ap(M1, M998.k0) == M999.k0 && Ap(M1, M998.k1) == M999.k1 && Ap(M1, M998.k2) == M999.k2;
    assert Ap(M1, M998.k3) == M999.k3 && Ap(M1, M998.k4) == M999.k4 && Ap(M1, M998.k5) == M999.k5;
    assert Ap(M1, M998.k6) == M999.k6 && Ap(M1, M998.k7) == M999.k7;
    assert Ap(M1, M998.k8) == M999.k8 && Ap(M1, M998.k9) == M999.k9;
  }

  lemma Doubled()
    ensures IsPower(1, M1) && IsPower(2, M2) && IsPower(4, M4) && IsPower(8, M8) && IsPower(16, M16)
    ensures IsPower(32, M32) && IsPower(64, M64) && IsPower(128, M128) && IsPower(256, M256) && IsPower(512, M512)
  {
    hide *;
    PowerOne();
    Product2();
    PowerSum(1, M1, 1, M1, M2);
    Product4();
    PowerSum(2, M2, 2, M2, M4);
    Product8();
    PowerSum(4, M4, 4, M4, M8);
    Product16();
    PowerSum(8, M8, 8, M8, M16);
    Product32();
    PowerSum(16, M16, 16, M16, M32);
    Product64();
    PowerSum(32, M32, 32, M32, M64);
    Product128();
    PowerSum(64, M64, 64, M64, M128);
    Product256();
    PowerSum(128, M128, 128, M128, M256);
    Product512();
    PowerSum(256, M256, 256, M256, M512);
  }

  /** The 1023rd power is one. */
  lemma FullPower()
    ensures IsPower(1023, M1023)
  {
    hide *;
    Doubled();
    Product3();
    PowerSum(2, M2, 1, M1, M3);
    Product7();
    PowerSum(4, M4, 3, M3, M7);
    Product15();
    PowerSum(8, M8, 7, M7, M15);
    Product31();
    PowerSum(16, M16, 15, M15, M31);
    Product63();
    PowerSum(32, M32, 31, M31, M63);
    Product127();
    PowerSum(64, M64, 63, M63, M127);
    Product255();
    PowerSum(128, M128, 127, M127, M255);
    Product511();
    PowerSum(256, M256, 255, M255, M511);
    Product1023();
    PowerSum(512, M512, 511, M511, M1023);
  }

  /** The powers for the prime factors 31, 11 and 3 of 1023. */
  lemma CoPowers()
    ensures IsPower(33, M33) && IsPower(93, M93) && IsPower(341, M341)
  {
    hide *;
    Doubled();
    Product33();
    PowerSum(32, M32, 1, M1, M33);
    Product5();
    PowerSum(4, M4, 1, M1, M5);
    Product13();
    PowerSum(8, M8, 5, M5, M13);
    Product29();
    PowerSum(16, M16, 13, M13, M29);
    Product93();
    PowerSum(64, M64, 29, M29, M93);
    Product21();
    PowerSum(16, M16, 5, M5, M21);
    Product85();
    PowerSum(64, M64, 21, M21, M85);
    Product341();
    PowerSum(256, M256, 85, M85, M341);
  }

  /** The three consecutive powers that are roots of the generator. */
  lemma RootPowers()
    ensures IsPower(997, M997) && IsPower(998, M998) && IsPower(999, M999)
  {
    hide *;
    Doubled();
    Product5();
    PowerSum(4, M4, 1, M1, M5);
    Product37();
    PowerSum(32, M32, 5, M5, M37);
    Product101();
    PowerSum(64, M64, 37, M37, M101);
    Product229();
    PowerSum(128, M128, 101, M101, M229);
    Product485();
    PowerSum(256, M256, 229, M229, M485);
    Product997();
    PowerSum(512, M512, 485, M485, M997);
    Product998();
    PowerSum(1, M1, 997, M997, M998);
    Product999();
    PowerSum(1, M1, 998, M998, M999);
  }

  // ---- no nonzero element comes back before 1023 steps ----

  lemma SplitBits(v: bv32)
    requires v < 1024
    ensures v == Xor(v & 31, v & 992) && v & 31 < 32
  {
  }

  lemma LowIsOne(v: bv32)
    requires v < 32
    ensures Ap(M1023, v) == v
  {
  }

  lemma HighIsOne(v: bv32)
    ensures Ap(M1023, v & 992) == v & 992
  {
  }

  lemma IterFull(v: bv32)
    requires v < 1024
    ensures Iter(1023, v) == v
  {
    hide Ap, Xor, Iter;
    FullPower();
    SplitBits(v);
    ApLinear(M1023, v & 31, v & 992);
    LowIsOne(v & 31);
    HighIsOne(v);
  }

  lemma NotFixed33(v: bv32)
    requires 0 < v < 1024
    ensures Ap(M33, v) != v
  {
  }

  lemma NotFixed93(v: bv32)
    requires 0 < v < 1024
    ensures Ap(M93, v) != v
  {
  }

  lemma NotFixed341(v: bv32)
    requires 0 < v < 1024
    ensures Ap(M341, v) != v
  {
  }

  lemma ApRange(v: bv32)
    requires v < 1024
    ensures Ap(M1, v) < 1024 && (Ap(M1, v) == 0 <==> v == 0)
  {
  }

  lemma {:induction false} IterRange(n: nat, v: bv32)
    requires v < 1024
    ensures Iter(n, v) < 1024 && (Iter(n, v) == 0 <==> v == 0)
  {
    hide Ap;
    if n > 0 {
      IterRange(n - 1, v);
      ApRange(Iter(n - 1, v));
    }
  }

  lemma {:induction false} Repeated(k: nat, d: nat, v: bv32)
    requires Iter(d, v) == v
    ensures Iter(k * d, v) == v
  {
    hide Ap;
    if k > 0 {
      Repeated(k - 1, d, v);
      IterSum(d, (k - 1) * d, v);
      assert d + (k - 1) * d == k * d;
    }
  }

  const INVERSE3: seq<nat> := [0, 1, 2]
  const INVERSE11: seq<nat> := [0, 1, 6, 4, 3, 9, 2, 8, 7, 5, 10]
  const INVERSE31: seq<nat> := [0, 1, 16, 21, 8, 25, 26, 9, 4, 7, 28, 17, 13, 12, 20, 29, 2, 11, 19, 18, 14, 3, 24,
    27, 22, 5, 6, 23, 10, 15, 30]

  /** A period that a prime factor of 1023 does not divide makes the cofactor a period. */
  lemma CoPeriod(q: nat, p: nat, k: nat, d: nat, r: nat, e: nat, j: nat, v: bv32)
    requires q * p == 1023 && d == p * e + r && r * k == p * j + 1 && Iter(d, v) == v && v < 1024
    ensures Iter(q, v) == v
  {
    hide Iter, Ap;
    Periods(q, p, k, d, r, e, j);
    Repeated(q * k, d, v);
    IterFull(v);
    Repeated(k * e + j, 1023, v);
    IterSum(q, (k * e + j) * 1023, v);
  }

  lemma Periods(q: nat, p: nat, k: nat, d: nat, r: nat, e: nat, j: nat)
    requires q * p == 1023 && d == p * e + r && r * k == p * j + 1
    ensures q * k * d == q + (k * e + j) * 1023
  {
    assert q * k * d == q * k * (p * e) + q * k * r;
    assert q * k * (p * e) == (q * p) * (k * e);
    assert q * k * r == q * (r * k);
    assert q * (p * j + 1) == (q * p) * j + q;
  }

  lemma Inverse3(r: nat)
    requires 0 < r < 3
    ensures r * INVERSE3[r] % 3 == 1
  {
  }

  lemma Inverse11(r: nat)
    requires 0 < r < 11
    ensures r * INVERSE11[r] % 11 == 1
  {
  }

  lemma Inverse31(r: nat)
    requires 0 < r < 31
    ensures r * INVERSE31[r] % 31 == 1
  {
  }

  lemma NotAllDivide(d: nat)
    requires 0 < d < 1023
    ensures d % 3 != 0 || d % 11 != 0 || d % 31 != 0
  {
  }

  /** The period of every nonzero element is 1023. */
  lemma NoSmallPeriod(d: nat, v: bv32)
    requires 0 < d < 1023 && 0 < v < 1024
    ensures Iter(d, v) != v
  {
    hide Iter, Ap, IsPower;
    NotAllDivide(d);
    CoPowers();
    if Iter(d, v) == v {
      if d % 3 != 0 {
        Inverse3(d % 3);
        CoPeriod(341, 3, INVERSE3[d % 3], d, d % 3, d / 3, d % 3 * INVERSE3[d % 3] / 3, v);
        PowerAt(341, M341, v);
        NotFixed341(v);
      } else if d % 11 != 0 {
        Inverse11(d % 11);
        CoPeriod(93, 11, INVERSE11[d % 11], d, d % 11, d / 11, d % 11 * INVERSE11[d % 11] / 11, v);
        PowerAt(93, M93, v);
        NotFixed93(v);
      } else {
        Inverse31(d % 31);
        CoPeriod(33, 31, INVERSE31[d % 31], d, d % 31, d / 31, d % 31 * INVERSE31[d % 31] / 31, v);
        PowerAt(33, M33, v);
        NotFixed33(v);
      }
    }
  }

  lemma PowerAt(n: nat, m: Mat, v: bv32)
    requires IsPower(n, m)
    ensures Iter(n, v) == Ap(m, v)
  {
  }

  /** Different powers of e, less than 1023 apart, take a nonzero element to different ones. */
  lemma PowersApart(a: nat, b: nat, v: bv32)
    requires v < 1024 && a < b < a + 1023 && Iter(a, v) == Iter(b, v)
    ensures v == 0
  {
    hide Iter, Ap;
    if v != 0 {
      IterSum(b - a, a, v);
      IterRange(a, v);
      NoSmallPeriod(b - a, Iter(a, v));
    }
  }
}
