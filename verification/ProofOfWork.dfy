/** The leading-zero-bits test of the relay's proof of work. */
module ProofOfWork {
  import opened Tables

  const POW_LEADING_ZERO_BITS: nat := 22

  function Pow2(n: nat): (r: nat)
    ensures 1 <= r
  {
    if n == 0 then 1 else 2 * Pow2(n - 1)
  }

  /** A hash read as one big-endian number. */
  function BigEndian(hash: Bytes): nat {
    if hash == [] then 0 else BigEndian(hash[..|hash| - 1]) * 256 + hash[|hash| - 1]
  }

  lemma {:induction false} Pow2Add(a: nat, b: nat)
    ensures Pow2(a + b) == Pow2(a) * Pow2(b)
  {
    if a != 0 {
      Pow2Add(a - 1, b);
      assert Pow2(a + b) == 2 * (Pow2(a - 1) * Pow2(b)) == (2 * Pow2(a - 1)) * Pow2(b);
    }
  }

  lemma {:induction false} Pow2Monotone(a: nat, b: nat)
    requires a <= b
    ensures Pow2(a) <= Pow2(b)
  {
    if a < b { Pow2Monotone(a, b - 1); }
  }

  lemma Pow2Of8()
    ensures Pow2(8) == 256
  {
    assert Pow2(4) == 16;
    Pow2Add(4, 4);
  }

  /** The first byte carries the most significant eight bits. */
  lemma {:induction false} BigEndianHead(hash: Bytes)
    requires hash != []
    ensures BigEndian(hash) == hash[0] * Pow2(8 * (|hash| - 1)) + BigEndian(hash[1..])
  {
    var n := |hash|;
    if n == 1 {
      assert hash[..0] == [] && hash[1..] == [];
    } else {
      var init := hash[..n - 1];
      BigEndianHead(init);
      assert init[1..] == hash[1..][..n - 2];
      Pow2Of8();
      Pow2Add(8 * (n - 2), 8);
      var p := Pow2(8 * (n - 2));
      assert (hash[0] * p) * 256 == hash[0] * (p * 256);
    }
  }

  lemma {:induction false} BigEndianBound(hash: Bytes)
    ensures BigEndian(hash) < Pow2(8 * |hash|)
  {
    if hash != [] {
      BigEndianBound(hash[..|hash| - 1]);
      Pow2Of8();
      Pow2Add(8 * (|hash| - 1), 8);
    }
  }

  /** Comparing two-digit numbers in base `p` compares the leading digit first. */
  lemma DigitCompare(h: nat, p: nat, r: nat, b: nat)
    requires r < p
    ensures h < b <==> h * p + r < b * p
  {
    if h < b {
      MulMonotone(h + 1, b, p);
      assert (h + 1) * p == h * p + p;
    } else {
      MulMonotone(b, h, p);
    }
  }

  lemma {:induction false} MulMonotone(a: nat, b: nat, c: nat)
    requires a <= b
    ensures a * c <= b * c
  {
    if c != 0 {
      MulMonotone(a, b, c - 1);
      assert a * c == a * (c - 1) + a && b * c == b * (c - 1) + b;
    }
  }

  /** One round of the byte loop on the bytes not yet examined. */
  lemma FirstByteDecides(rest: Bytes, bits: nat)
    requires rest != []
    ensures bits >= 8 && rest[0] != 0 ==> BigEndian(rest) >= Pow2(SatSub(8 * |rest|, bits))
    ensures bits >= 8 && rest[0] == 0 ==> BigEndian(rest) == BigEndian(rest[1..])
    ensures 0 < bits < 8 ==>
              (rest[0] / Pow2(8 - bits) == 0 <==> BigEndian(rest) < Pow2(SatSub(8 * |rest|, bits)))
  {
    var n := 8 * (|rest| - 1);
    var h, p, low := rest[0], Pow2(n), BigEndian(rest[1..]);
    BigEndianHead(rest);
    BigEndianBound(rest[1..]);
    if bits >= 8 {
      if h != 0 {
        MulMonotone(1, h, p);
        Pow2Monotone(SatSub(8 * |rest|, bits), n);
      }
    } else if 0 < bits {
      var b := Pow2(8 - bits);
      Pow2Add(8 - bits, n);
      DigitCompare(h, p, low, b);
      QuotientZero(h, b);
    }
  }

  lemma QuotientZero(h: nat, b: nat)
    requires 1 <= b
    ensures h / b == 0 <==> h < b
  {
    if h < b {
      assert h / b == 0;
    } else {
      assert h == b * (h / b) + h % b;
    }
  }

  /** The byte loop accepts exactly the hashes whose value is below 2^(width - difficulty); a
      difficulty beyond the width leaves only the all-zero hash. */
  method PowHashOk(hash: Bytes, difficulty: nat) returns (ok: bool)
    ensures ok <==> BigEndian(hash) < Pow2(SatSub(8 * |hash|, difficulty))
  {
    var bits: nat := difficulty;
    var i := 0;
    while i < |hash|
      invariant 0 <= i <= |hash| && difficulty == bits + 8 * i
      invariant BigEndian(hash) == BigEndian(hash[i..])
    {
      var byte := hash[i];
      FirstByteDecides(hash[i..], bits);
      assert hash[i..][1..] == hash[i + 1..];
      if bits == 0 {
        BigEndianBound(hash[i..]);
        break;
      }
      if bits >= 8 {
        if byte != 0 { return false; }
        bits := bits - 8;
      } else {
        return byte / Pow2(8 - bits) == 0;
      }
      i := i + 1;
    }
    return true;
  }

  /** At the configured difficulty a 32-byte digest passes exactly when its value is below 2^234. */
  method DigestOk(digest: Bytes) returns (ok: bool)
    requires |digest| == 32
    ensures ok <==> BigEndian(digest) < Pow2(234)
  {
    ok := PowHashOk(digest, POW_LEADING_ZERO_BITS);
  }
}
