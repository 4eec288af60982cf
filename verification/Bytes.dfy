/** Byte strings and the big-endian integers that every wire format of the stack is built from.

    The host is little-endian, so `htonl` followed by a raw copy of the word lays the value out in
    big-endian order; `BE` is that layout and `Val` reads it back. */
module Bytes {
  import Arith

  type byte = x: int | 0 <= x < 256
  type Bytes = seq<byte>

  type u16 = x: int | 0 <= x < 0x1_0000
  type u32 = x: int | 0 <= x < 0x1_0000_0000
  type u64 = x: int | 0 <= x < 0x1_0000_0000_0000_0000
  type i8 = x: int | -0x80 <= x < 0x80
  type i32 = x: int | -0x8000_0000 <= x < 0x8000_0000
  type i64 = x: int | -0x8000_0000_0000_0000 <= x < 0x8000_0000_0000_0000

  function Pow256(n: nat): (p: nat)
    ensures p > 0
  {
    if n == 0 then 1 else 256 * Pow256(n - 1)
  }

  /** The low `width` bytes of `v`, most significant first. */
  function BE(width: nat, v: nat): (s: Bytes)
    ensures |s| == width
  {
    if width == 0 then [] else BE(width - 1, v / 256) + [v % 256]
  }

  function Val(s: Bytes): (v: nat)
    ensures v < Pow256(|s|)
  {
    if s == [] then 0 else Val(s[..|s| - 1]) * 256 + s[|s| - 1]
  }

  /** Reading back what was written is the identity exactly on the values that fit. */
  lemma {:induction false} ValBE(width: nat, v: nat)
    ensures Val(BE(width, v)) == v <==> v < Pow256(width)
  {
    if width > 0 {
      ValBE(width - 1, v / 256);
      assert BE(width, v)[..width - 1] == BE(width - 1, v / 256);
    }
  }

  /** The byte at each place: the first is the most significant. */
  lemma {:induction false} ByteAt(width: nat, v: nat, i: nat)
    requires i < width
    ensures BE(width, v)[i] == v / Pow256(width - 1 - i) % 256
  {
    if i < width - 1 {
      ByteAt(width - 1, v / 256, i);
      DivAgain(v, Pow256(width - 2 - i));
    }
  }

  lemma DivAgain(v: nat, p: nat)
    requires p > 0
    ensures v / 256 / p == v / (256 * p)
  {
    var q, r := v / 256 / p, v / 256 % p;
    assert v / 256 == q * p + r;
    var low := r * 256 + v % 256;
    assert v == q * (256 * p) + low by {
      assert q * p * 256 == q * (256 * p);
    }
    Arith.DivUnique(v, 256 * p, q, low);
  }

  lemma OneByte(v: byte)
    ensures BE(1, v) == [v]
  {
    assert BE(0, v / 256) == [];
  }

  lemma {:induction false} ValConcat(a: Bytes, b: Bytes)
    ensures Val(a + b) == Val(a) * Pow256(|b|) + Val(b)
  {
    if b == [] {
      assert a + b == a;
    } else {
      var b' := b[..|b| - 1];
      ValConcat(a, b');
      assert (a + b)[..|a + b| - 1] == a + b';
      calc {
        Val(a + b);
        Val(a + b') * 256 + b[|b| - 1];
        (Val(a) * Pow256(|b'|) + Val(b')) * 256 + b[|b| - 1];
        { MulAssoc(Val(a), Pow256(|b'|)); }
        Val(a) * Pow256(|b|) + Val(b);
      }
    }
  }

  lemma MulAssoc(a: nat, p: nat)
    ensures a * p * 256 == a * (256 * p)
  {
  }

  /** A 64-bit value is its two 32-bit halves, high half first. */
  lemma BE8Halves(v: nat)
    ensures BE(8, v) == BE(4, v / 0x1_0000_0000) + BE(4, v)
  {
    var v1, v2, v3, v4 := v / 256, v / 256 / 256, v / 256 / 256 / 256, v / 256 / 256 / 256 / 256;
    assert v4 == v / 0x1_0000_0000;
    assert BE(2, v2) == BE(1, v3) + [v2 % 256] && BE(1, v3) == BE(0, v4) + [v3 % 256];
    assert BE(4, v) == BE(3, v1) + [v % 256] && BE(3, v1) == BE(2, v2) + [v1 % 256];
    assert BE(6, v2) == BE(5, v3) + [v2 % 256] && BE(5, v3) == BE(4, v4) + [v3 % 256];
    assert BE(8, v) == BE(7, v1) + [v % 256] && BE(7, v1) == BE(6, v2) + [v1 % 256];
    assert BE(4, v) == [v3 % 256, v2 % 256, v1 % 256, v % 256];
    assert BE(8, v) == BE(4, v4) + [v3 % 256] + [v2 % 256] + [v1 % 256] + [v % 256];
  }

  lemma Assoc(a: Bytes, b: Bytes, c: Bytes)
    ensures a + b + c == a + (b + c)
  {
  }

  // Regrouping of fields written one after the other.

  lemma Nest4(a: Bytes, b: Bytes, c: Bytes, d: Bytes, s: Bytes)
    ensures a + (b + (c + d)) + s == a + (b + (c + (d + s)))
  {
    Assoc(a, b + (c + d), s);
    Assoc(b, c + d, s);
    Assoc(c, d, s);
  }

  lemma Nest6(a: Bytes, b: Bytes, c: Bytes, d: Bytes, e: Bytes, f: Bytes, s: Bytes)
    ensures a + (b + (c + (d + (e + f)))) + s == a + (b + (c + (d + (e + (f + s)))))
  {
    Nest4(c, d, e, f, s);
    Assoc(a, b + (c + (d + (e + f))), s);
    Assoc(b, c + (d + (e + f)), s);
  }

  lemma LeftNest4(s: Bytes, a: Bytes, b: Bytes, c: Bytes, d: Bytes)
    ensures s + a + b + c + d == s + (a + (b + (c + d)))
  {
    Assoc(s + a + b, c, d);
    Assoc(s + a, b, c + d);
    Assoc(s, a, b + (c + d));
  }

  lemma LeftNest6(s: Bytes, a: Bytes, b: Bytes, c: Bytes, d: Bytes, e: Bytes, f: Bytes)
    ensures s + a + b + c + d + e + f == s + (a + (b + (c + (d + (e + f)))))
  {
    LeftNest4(s + a + b, c, d, e, f);
    Assoc(s + a, b, c + (d + (e + f)));
    Assoc(s, a, b + (c + (d + (e + f))));
  }

  /** Concatenation of a list of byte strings. */
  function Concat(ss: seq<Bytes>): (r: Bytes) {
    if ss == [] then [] else ss[0] + Concat(ss[1..])
  }

  lemma {:induction false} ConcatAppend(a: seq<Bytes>, b: seq<Bytes>)
    ensures Concat(a + b) == Concat(a) + Concat(b)
  {
    if a == [] {
      assert a + b == b;
    } else {
      ConcatAppend(a[1..], b);
      assert (a + b)[1..] == a[1..] + b;
      Assoc(a[0], Concat(a[1..]), Concat(b));
    }
  }

  lemma ConcatOne(s: Bytes)
    ensures Concat([s]) == s
  {
    assert [s][1..] == [];
  }

  lemma ConcatSnoc(ss: seq<Bytes>)
    requires ss != []
    ensures Concat(ss) == Concat(ss[..|ss| - 1]) + ss[|ss| - 1]
  {
    assert ss == ss[..|ss| - 1] + [ss[|ss| - 1]];
    ConcatAppend(ss[..|ss| - 1], [ss[|ss| - 1]]);
    ConcatOne(ss[|ss| - 1]);
  }
}
