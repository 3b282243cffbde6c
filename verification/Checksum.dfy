/** kernel/net/ip.c: the Internet checksum of RFC 1071 and its use in the headers of RFC 791.
    Words are read in the byte order of the machine, which is little endian; sums are 32-bit.
 */
module Checksum {

  type Byte = b: nat | b < 256

  type Word = w: nat | w < 0x10000

  const U32: nat := 0x1_0000_0000

  // ----- one's complement sums -----

  /** The end-around carry of a sum: its residue modulo 65535, 65535 standing for 0 unless the
      sum itself is 0. */
  function Fold(s: nat): Word
  {
    if s == 0 then 0 else (s - 1) % 65535 + 1
  }

  /** One turn of the carry loop. */
  lemma {:induction false} FoldStep(s: nat)
    requires s >= 0x10000
    ensures var t := s % 0x10000 + s / 0x10000;
      t < s && Fold(t) == Fold(s)
  {
    var t, k := s % 0x10000 + s / 0x10000, s / 0x10000;
    assert s == t + 65535 * k;
    Residue(t - 1, k);
  }

  lemma {:induction false} Residue(a: nat, k: nat)
    ensures (a + 65535 * k) % 65535 == a % 65535
  {
    if k > 0 {
      Residue(a, k - 1);
      assert a + 65535 * k == a + 65535 * (k - 1) + 65535;
    }
  }

  lemma {:induction false} FoldSmall(s: nat)
    requires s < 0x10000
    ensures Fold(s) == s
  {
  }

  /** The folded sum is the only word in its class. */
  lemma {:induction false} FoldIs(s: nat, f: nat, k: nat)
    requires 0 < f < 0x10000 && s == f + 65535 * k
    ensures Fold(s) == f
  {
    Residue(f - 1, k);
  }

  lemma {:induction false} FoldClass(s: nat) returns (k: nat)
    ensures s == Fold(s) + 65535 * k
  {
    k := if s == 0 then 0 else (s - 1) / 65535;
  }

  // ----- the checksum -----

  ghost function Sum(ws: seq<Word>): nat
  {
    if ws == [] then 0 else Sum(ws[..|ws| - 1]) + ws[|ws| - 1]
  }

  ghost function Check(ws: seq<Word>): Word
  {
    0xFFFF - Fold(Sum(ws))
  }

  lemma {:induction false} SumBound(ws: seq<Word>)
    ensures Sum(ws) <= 65535 * |ws|
  {
    if ws != [] { SumBound(ws[..|ws| - 1]); }
  }

  lemma {:induction false} SumUpdate(ws: seq<Word>, k: nat, w: Word)
    requires k < |ws|
    ensures Sum(ws[k := w]) + ws[k] == Sum(ws) + w
  {
    var n := |ws| - 1;
    if k == n {
      assert ws[k := w][..n] == ws[..n];
    } else {
      assert ws[k := w][..n] == ws[..n][k := w];
      SumUpdate(ws[..n], k, w);
    }
  }

  /** The data as words; an odd last byte counts as a word by itself. */
  ghost function Words(data: seq<Byte>): seq<Word>
  {
    if data == [] then []
    else if |data| % 2 == 1 then Words(data[..|data| - 1]) + [data[|data| - 1] as nat]
    else Words(data[..|data| - 2]) + [data[|data| - 2] as nat + 0x100 * data[|data| - 1] as nat]
  }

  lemma {:induction false} WordsEven(data: seq<Byte>, h: nat, k: nat)
    requires |data| == 2 * h
    ensures |Words(data)| == h && (k < h ==> Words(data)[k] == data[2 * k] as nat + 0x100 * data[2 * k + 1] as nat)
  {
    if h > 0 { WordsEven(data[..2 * h - 2], h - 1, k); }
  }

  lemma {:induction false} WordsOdd(data: seq<Byte>, h: nat)
    requires |data| == 2 * h + 1
    ensures Words(data) == Words(data[..2 * h]) + [data[2 * h] as nat]
  {
  }

  lemma {:induction false} WordsAt(data: seq<Byte>, k: nat)
    ensures |Words(data)| == (|data| + 1) / 2
    ensures k < |data| / 2 ==> Words(data)[k] == data[2 * k] as nat + 0x100 * data[2 * k + 1] as nat
  {
    var h := |data| / 2;
    if |data| == 2 * h {
      WordsEven(data, h, k);
    } else {
      WordsOdd(data, h);
      WordsEven(data[..2 * h], h, k);
    }
  }

  lemma {:induction false} WordsPrefix(data: seq<Byte>, n: nat)
    requires n % 2 == 0 && n <= |data|
    ensures n + 1 < |data| ==> Words(data[..n + 2]) == Words(data[..n]) + [data[n] as nat + 0x100 * data[n + 1] as nat]
    ensures n + 1 == |data| ==> Words(data) == Words(data[..n]) + [data[n] as nat]
  {
    if n + 1 < |data| { assert data[..n + 2][..n] == data[..n]; }
  }

  /** One more word of the data. */
  lemma {:induction false} NextWord(data: seq<Byte>, p: nat, w: Word)
    requires p % 2 == 0 && p < |data|
    requires w == if p + 1 < |data| then data[p] as nat + 0x100 * data[p + 1] as nat else data[p] as nat
    ensures var q := if p + 1 < |data| then p + 2 else p + 1;
      Sum(Words(data[..q])) == Sum(Words(data[..p])) + w
  {
    WordsPrefix(data, p);
    assert data[..|data|] == data;
    Appended(Words(data[..p]), w);
  }

  /** The summing loop: the sum, in 32 bits. */
  method AddWords(data: seq<Byte>) returns (sum: nat)
    ensures sum == Sum(Words(data)) % U32
  {
    sum := 0;
    var p: nat := 0;
    assert data[..0] == [] && data[..|data|] == data;
    while |data| - p > 1
      invariant p <= |data| && p % 2 == 0 && sum == Sum(Words(data[..p])) % U32
    {
      var w := ReadWord(data, p);
      NextWord(data, p, w);
      sum := Add32(sum, w, Sum(Words(data[..p])));
      p := p + 2;
    }
    if |data| - p > 0 {
      NextWord(data, p, data[p]);
      sum := Add32(sum, data[p], Sum(Words(data[..p])));
    }
  }

  method ReadWord(data: seq<Byte>, p: nat) returns (w: Word)
    requires p + 1 < |data|
    ensures w == data[p] as nat + 0x100 * data[p + 1] as nat
  {
    w := data[p] as nat + 0x100 * data[p + 1] as nat;
  }

  /** Addition of uint32_t values, where `a` stands for `total`. */
  method Add32(a: nat, b: nat, ghost total: nat) returns (r: nat)
    requires a == total % U32
    ensures r == (total + b) % U32
  {
    r := (a + b) % U32;
  }

  /** The carry loop. */
  method FoldCarries(sum0: nat) returns (sum: nat)
    ensures sum == Fold(sum0)
  {
    sum := sum0;
    while sum >= 0x10000
      invariant Fold(sum) == Fold(sum0)
    {
      FoldStep(sum);
      sum := sum % 0x10000 + sum / 0x10000;
    }
    FoldSmall(sum);
  }

  lemma {:induction false} Appended(ws: seq<Word>, w: Word)
    ensures Sum(ws + [w]) == Sum(ws) + w
  {
    assert (ws + [w])[..|ws|] == ws;
  }

  lemma {:induction false} Fits(data: seq<Byte>)
    ensures Sum(Words(data)) <= 65535 * ((|data| + 1) / 2)
  {
    WordsAt(data, 0);
    SumBound(Words(data));
  }

  /** A carry out of 32 bits changes the folded sum, as long as there are fewer than 65535. */
  lemma {:induction false} CarryMatters(s: nat)
    requires s < 65535 * U32
    ensures Fold(s % U32) == Fold(s) <==> s < U32
  {
    var (r, k) := (s % U32, s / U32);
    if k > 0 {
      assert s == r + k + 65535 * (65537 * k);
      var i := FoldClass(r);
      var j := FoldClass(s);
      if Fold(r) == Fold(s) { NoMultiple(k, j, i + 65537 * k); }
    }
  }

  lemma {:induction false} NoMultiple(k: nat, i: nat, j: nat)
    requires 0 < k < 65535
    ensures 65535 * i != k + 65535 * j
  {
  }

  /** ip_checksum of up to 2^32 - 1 bytes: the checksum exactly when the sum fits into 32
      bits, as it does for up to 65537 words. */
  method IpChecksum(data: seq<Byte>) returns (c: Word)
    ensures |data| < U32 ==> (c == Check(Words(data)) <==> Sum(Words(data)) < U32)
    ensures |data| <= 2 * 65537 ==> c == Check(Words(data))
  {
    var sum := AddWords(data);
    sum := FoldCarries(sum);
    c := 0xFFFF - sum;
    Fits(data);
    if |data| < U32 { CarryMatters(Sum(Words(data))); }
  }

  lemma {:induction false} OnesMore(d: seq<Byte>, h: nat, r: seq<Byte>)
    requires |d| == 2 * h && r == d + [0xFF, 0xFF]
    ensures Sum(Words(r)) == Sum(Words(d)) + 65535
  {
    assert r[..|r| - 2] == d;
    assert Words(r) == Words(d) + [0xFFFF];
    Appended(Words(d), 0xFFFF);
  }

  /** `n` words of ones. */
  method AllOnes(n: nat) returns (data: seq<Byte>)
    ensures |data| == 2 * n && (forall k :: 0 <= k < 2 * n ==> data[k] == 0xFF) && Sum(Words(data)) == 65535 * n
  {
    data := [];
    var i: nat := 0;
    while i < n
      invariant i <= n && |data| == 2 * i && (forall k :: 0 <= k < 2 * i ==> data[k] == 0xFF)
        && Sum(Words(data)) == 65535 * i
    {
      OnesMore(data, i, data + [0xFF, 0xFF]);
      data := data + [0xFF, 0xFF];
      i := i + 1;
    }
  }

  /** With one word more the sum may not fit: for 65538 words of ones ip_checksum is wrong. */
  method BoundIsSharp() returns (data: seq<Byte>, c: Word)
    ensures |data| == 2 * 65538 && (forall k :: 0 <= k < |data| ==> data[k] == 0xFF) && c != Check(Words(data))
  {
    data := AllOnes(65538);
    c := IpChecksum(data);
  }

  // ----- why it works -----

  /** A header whose checksum field holds the checksum of the header with the field zeroed
      has checksum 0. */
  lemma {:induction false} StoredIsZero(ws: seq<Word>, k: nat)
    requires k < |ws| && ws[k] == 0
    ensures Check(ws[k := Check(ws)]) == 0
  {
    var s := Sum(ws);
    SumUpdate(ws, k, Check(ws));
    var j := FoldClass(s);
    FoldIs(s + Check(ws), 0xFFFF, j);
  }

  /** Which stored values make the checksum of the whole 0: the computed one, and besides it
      only the other form of zero. */
  lemma {:induction false} ZeroMeans(ws: seq<Word>, k: nat, c: Word)
    requires k < |ws| && ws[k] == 0
    ensures Check(ws[k := c]) == 0 <==> c == Check(ws) || (Sum(ws) > 0 && Check(ws) == 0 && c == 0xFFFF)
  {
    var s := Sum(ws);
    SumUpdate(ws, k, c);
    var j := FoldClass(s);
    var i := FoldClass(s + c);
  }

  function Swap(w: Word): Word
  {
    w % 0x100 * 0x100 + w / 0x100
  }

  ghost function Swapped(ws: seq<Word>): (r: seq<Word>)
    ensures |r| == |ws|
  {
    if ws == [] then [] else Swapped(ws[..|ws| - 1]) + [Swap(ws[|ws| - 1])]
  }

  /** Swapping the bytes multiplies by 256 modulo 65535. */
  lemma {:induction false} SwapIs(w: Word)
    ensures 0x100 * w == Swap(w) + 65535 * (w / 0x100) && (Swap(w) == 0 <==> w == 0)
      && Swap(0xFFFF - w) == 0xFFFF - Swap(w)
  {
  }

  lemma {:induction false} SwappedSum(ws: seq<Word>) returns (k: nat)
    ensures 0x100 * Sum(ws) == Sum(Swapped(ws)) + 65535 * k && (Sum(Swapped(ws)) == 0 <==> Sum(ws) == 0)
  {
    k := 0;
    if ws != [] {
      var n := |ws| - 1;
      k := SwappedSum(ws[..n]);
      SwapIs(ws[n]);
      assert Swapped(ws)[..n] == Swapped(ws[..n]);
      k := k + ws[n] / 0x100;
    }
  }

  /** Summing in the other byte order gives the checksum in the other byte order. */
  lemma {:induction false} ByteOrder(ws: seq<Word>)
    ensures Check(Swapped(ws)) == Swap(Check(ws))
  {
    var s, t := Sum(ws), Sum(Swapped(ws));
    var k := SwappedSum(ws);
    var j := FoldClass(s);
    var f: Word := Fold(s);
    SwapIs(f);
    if s > 0 {
      var i := FoldClass(t);
      SameClass(Swap(f), Fold(t), f / 0x100 + 0x100 * j, i + k);
    }
  }

  /** Two words other than 0 that differ by a multiple of 65535 are equal. */
  lemma {:induction false} SameClass(a: Word, b: Word, i: nat, j: nat)
    requires a > 0 && b > 0 && a + 65535 * i == b + 65535 * j
    ensures a == b
  {
  }

  // ----- headers -----

  /** The header with its checksum field, bytes 10 and 11, set to `c`. */
  function WithCheck(h: seq<Byte>, c: Word): (r: seq<Byte>)
    requires |h| >= 12
    ensures |r| == |h|
  {
    h[..10] + [c % 0x100, c / 0x100] + h[12..]
  }

  function CheckField(h: seq<Byte>): Word
    requires |h| >= 12
  {
    h[10] as nat + 0x100 * h[11] as nat
  }

  lemma {:induction false} FieldWord(h: seq<Byte>, c: Word)
    requires |h| >= 12
    ensures |Words(h)| >= 6 && Words(WithCheck(h, c)) == Words(h)[5 := c] && CheckField(WithCheck(h, c)) == c
  {
    var r := WithCheck(h, c);
    WordsAt(h, 0);
    WordsAt(r, 0);
    var v, w := Words(r), Words(h);
    forall k | 0 <= k < |v| ensures v[k] == w[5 := c][k] {
      WordsAt(h, k);
      WordsAt(r, k);
      if k == |h| / 2 { LastWord(h, r); }
    }
  }

  lemma {:induction false} LastWord(h: seq<Byte>, r: seq<Byte>)
    requires |h| == |r| && |h| % 2 == 1 && h[|h| - 1] == r[|r| - 1]
    ensures |Words(h)| == |h| / 2 + 1 == |Words(r)| && Words(h)[|h| / 2] == Words(r)[|h| / 2]
  {
    WordsAt(h[..|h| - 1], 0);
    WordsAt(r[..|r| - 1], 0);
  }

  /** The part of ip_send that fills in the checksum. */
  method Seal(h0: seq<Byte>) returns (h: seq<Byte>)
    requires 12 <= |h0| <= 2 * 65537
    ensures |h| == |h0| && h == WithCheck(h0, CheckField(h)) && Check(Words(h)) == 0
    ensures CheckField(h) == Check(Words(WithCheck(h0, 0)))
  {
    var zeroed := WithCheck(h0, 0);
    var c := IpChecksum(zeroed);
    h := WithCheck(zeroed, c);
    assert h == WithCheck(h0, c);
    FieldWord(h0, 0);
    FieldWord(h0, c);
    FieldWord(zeroed, c);
    StoredIsZero(Words(zeroed), 5);
  }

  /** The checks of ip_rcv, which take the length from the header. */
  method Accepts(h: seq<Byte>) returns (ok: bool)
    requires |h| >= 12 && |h| >= h[0] % 16 * 4
    ensures ok <==> h[0] / 16 == 4 && CheckField(h) == Check(Words(WithCheck(h, 0)[..h[0] % 16 * 4]))
  {
    if h[0] / 16 != 4 {
      return false;
    }
    var c := IpChecksum(WithCheck(h, 0)[..h[0] % 16 * 4]);
    ok := c == CheckField(h);
  }

  /** What ip_send seals, ip_rcv accepts. */
  method Deliver(h0: seq<Byte>) returns (h: seq<Byte>, ok: bool)
    requires |h0| >= 12 && h0[0] / 16 == 4 && |h0| == h0[0] % 16 * 4
    ensures ok && |h| == |h0| && h == WithCheck(h0, CheckField(h))
  {
    h := Seal(h0);
    assert h[0] == h0[0] && WithCheck(h, 0) == WithCheck(h0, 0);
    assert WithCheck(h, 0)[..|h|] == WithCheck(h, 0);
    ok := Accepts(h);
  }

  /** What ip_rcv accepts has checksum 0, and the only header of version 4 with checksum 0 that
      it refuses holds 0xFFFF where 0 was computed. */
  lemma {:induction false} Agreement(h: seq<Byte>)
    requires |h| >= 12
    ensures var (z, c) := (WithCheck(h, 0), CheckField(h));
      && (c == Check(Words(z)) ==> Check(Words(h)) == 0)
      && (Check(Words(h)) == 0 && c != Check(Words(z)) ==> c == 0xFFFF && Check(Words(z)) == 0)
  {
    var z, c := WithCheck(h, 0), CheckField(h);
    FieldWord(h, 0);
    FieldWord(z, c);
    assert WithCheck(z, c) == h;
    ZeroMeans(Words(z), 5, c);
  }
}
