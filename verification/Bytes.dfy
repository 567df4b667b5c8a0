/** Big-endian numbers and the byte-wise order of equally long arrays. */
module BigEndian {
  import opened Base

  function Pow256(n: nat): (p: nat)
    ensures 1 <= p
  {
    if n == 0 then 1 else 256 * Pow256(n - 1)
  }

  lemma KnownPowers()
    ensures Pow256(4) == 0x1_0000_0000 && Pow256(8) == U64_LIMIT
    ensures Pow256(16) == U128_LIMIT && Pow256(32) == U128_LIMIT * U128_LIMIT
  {
    assert Pow256(8) == U64_LIMIT;
    assert Pow256(12) == 0x1_0000_0000 * U64_LIMIT;
    assert Pow256(16) == U128_LIMIT;
    assert Pow256(20) == 0x1_0000_0000 * U128_LIMIT;
    assert Pow256(24) == U64_LIMIT * U128_LIMIT;
    assert Pow256(28) == 0x1_0000_0000 * U64_LIMIT * U128_LIMIT;
  }

  /** The number that `s` spells, most significant byte first. */
  function Value(s: Bytes): nat {
    if s == [] then 0 else Value(s[..|s| - 1]) * 256 + s[|s| - 1]
  }

  /** The `n` low bytes of `v`, most significant byte first. */
  function ToBytes(v: nat, n: nat): (s: Bytes)
    ensures |s| == n
  {
    if n == 0 then [] else ToBytes(v / 256, n - 1) + [v % 256]
  }

  lemma {:induction false} ValueBelowPow(s: Bytes)
    ensures Value(s) < Pow256(|s|)
  {
    if s == [] {
    } else {
      ValueBelowPow(s[..|s| - 1]);
    }
  }

  lemma {:induction false} ValueOfToBytes(v: nat, n: nat)
    requires v < Pow256(n)
    ensures Value(ToBytes(v, n)) == v
  {
    if n == 0 {
    } else {
      ValueOfToBytes(v / 256, n - 1);
      assert ToBytes(v, n)[..n - 1] == ToBytes(v / 256, n - 1);
    }
  }

  lemma {:induction false} ToBytesOfValue(s: Bytes)
    ensures ToBytes(Value(s), |s|) == s
  {
    if s == [] {
    } else {
      ToBytesOfValue(s[..|s| - 1]);
      assert s == s[..|s| - 1] + [s[|s| - 1]];
    }
  }

  lemma {:induction false} ValueOfConcat(a: Bytes, b: Bytes)
    ensures Value(a + b) == Value(a) * Pow256(|b|) + Value(b)
  {
    if b == [] {
      assert a + b == a;
    } else {
      var front := b[..|b| - 1];
      ValueOfConcat(a, front);
      assert (a + b)[..|a + b| - 1] == a + front;
      Regroup(Value(a), Pow256(|front|));
    }
  }

  lemma Regroup(v: int, p: int)
    ensures (v * p) * 256 == v * (256 * p)
  {
  }

  lemma {:induction false} ValueOfZeros(n: nat)
    ensures Value(seq(n, _ => 0)) == 0
  {
    if n == 0 {
    } else {
      ValueOfZeros(n - 1);
      assert seq(n, _ => 0)[..n - 1] == seq(n - 1, _ => 0);
    }
  }

  /** Rust's `<` on byte arrays of one length: the first differing byte decides. */
  predicate LexLess(a: Bytes, b: Bytes)
    requires |a| == |b|
  {
    a != [] && if a[0] != b[0] then a[0] < b[0] else LexLess(a[1..], b[1..])
  }

  /** Byte-wise comparison is numeric comparison of the big-endian values, so it is total and
      antisymmetric; it is also how Solidity compares two `bytes32`. */
  lemma {:induction false} LexLessIsNumeric(a: Bytes, b: Bytes)
    requires |a| == |b|
    ensures LexLess(a, b) <==> Value(a) < Value(b)
    ensures Value(a) == Value(b) <==> a == b
  {
    ToBytesOfValue(a);
    ToBytesOfValue(b);
    if a == [] {
    } else {
      LexLessIsNumeric(a[1..], b[1..]);
      HeadAndTail(a);
      HeadAndTail(b);
      var p := Pow256(|a| - 1);
      if a[0] < b[0] {
        LeadingDigitDecides(a[0], Value(a[1..]), b[0], p);
      } else if b[0] < a[0] {
        LeadingDigitDecides(b[0], Value(b[1..]), a[0], p);
      }
    }
  }

  lemma LeadingDigitDecides(x: int, rest: int, y: int, p: nat)
    requires x < y && rest < p
    ensures x * p + rest < y * p
  {
    assert (x + 1) * p <= y * p;
  }

  lemma HeadAndTail(s: Bytes)
    requires s != []
    ensures Value(s) == s[0] * Pow256(|s| - 1) + Value(s[1..]) && Value(s[1..]) < Pow256(|s| - 1)
  {
    ValueBelowPow(s[1..]);
    ValueOfConcat([s[0]], s[1..]);
    assert s == [s[0]] + s[1..];
    assert Value([s[0]]) == s[0];
  }
}
