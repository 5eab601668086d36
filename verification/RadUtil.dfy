/**
 Binary strings of rad_util.py: binary_range counts with a ripple carry, int2bin goes through
 hexadecimal digits.
 */
module BinaryStrings {
  import opened Basics

  datatype Result = Ok(value: string) | ValueError

  predicate Bits(s: string) {
    forall i :: 0 <= i < |s| ==> s[i] == '0' || s[i] == '1'
  }

  function Bit(c: char): nat {
    if c == '1' then 1 else 0
  }

  /** int(s, 2), for a string of binary digits: the most significant digit comes first. */
  function Bin2Int(s: string): nat {
    if s == "" then 0 else 2 * Bin2Int(s[..|s|-1]) + Bit(s[|s|-1])
  }

  lemma {:induction false} ValueConcat(a: string, b: string)
    ensures Bin2Int(a + b) == Bin2Int(a) * Pow2(|b|) + Bin2Int(b)
    decreases |b|
  {
    if b == "" {
      assert a + b == a;
    } else {
      var k := |b| - 1;
      ValueConcat(a, b[..k]);
      assert (a + b)[..|a|+k] == a + b[..k];
      Doubled(Bin2Int(a), Pow2(k), Pow2(|b|));
    }
  }

  lemma Doubled(x: nat, p: nat, q: nat)
    requires q == 2 * p
    ensures 2 * (x * p) == x * q
  {
  }

  lemma {:induction false} ValueBound(s: string)
    ensures Bin2Int(s) < Pow2(|s|)
  {
    if s != "" {
      ValueBound(s[..|s|-1]);
    }
  }

  /** A binary string is determined by its length and its value. */
  lemma {:induction false} ValueIsInjective(s: string, t: string)
    requires Bits(s) && Bits(t) && |s| == |t| && Bin2Int(s) == Bin2Int(t)
    ensures s == t
    decreases |s|
  {
    if s != "" {
      var k := |s| - 1;
      assert Bit(s[k]) == Bin2Int(s) % 2 && Bit(t[k]) == Bin2Int(t) % 2;
      ValueIsInjective(s[..k], t[..k]);
      assert s == s[..k] + [s[k]] && t == t[..k] + [t[k]];
    }
  }

  lemma {:induction false} ZeroValue(s: string)
    requires Bits(s)
    ensures Bin2Int(s) == 0 <==> '1' !in s
  {
    if s != "" {
      var k := |s| - 1;
      ZeroValue(s[..k]);
      assert s == s[..k] + [s[k]];
    }
  }

  // ---------------------------------------------------------------- int2bin

  /** hex(i) without its prefix: no leading zero but for 0 itself. */
  function Hex(i: nat): (ds: seq<nat>)
    ensures ds != [] && forall k :: 0 <= k < |ds| ==> ds[k] < 16
  {
    if i < 16 then [i] else Hex(i / 16) + [i % 16]
  }

  const HEX2BIN := ["0000", "0001", "0010", "0011", "0100", "0101", "0110", "0111",
                    "1000", "1001", "1010", "1011", "1100", "1101", "1110", "1111"]

  function Nibble(d: nat): string
    requires d < 16
  {
    HEX2BIN[d]
  }

  function Join(ds: seq<nat>): string
    requires forall k :: 0 <= k < |ds| ==> ds[k] < 16
  {
    if ds == [] then "" else Join(ds[..|ds|-1]) + Nibble(ds[|ds|-1])
  }

  function Zeros(n: nat): string {
    seq(n, _ => '0')
  }

  /** Lines 96-105. With n == 0 Python's slices result[:-0] and result[-0:] are "" and all of result. */
  function Int2Bin(i: nat, n: nat): Result {
    var result := Join(Hex(i));
    var cut := if n == 0 || n > |result| then 0 else |result| - n;
    if '1' in result[..cut] then ValueError
    else Ok(Zeros(if n > |result| - cut then n - (|result| - cut) else 0) + result[cut..])
  }

  lemma NibbleValue(d: nat)
    requires d < 16
    ensures |Nibble(d)| == 4 && Bits(Nibble(d)) && Bin2Int(Nibble(d)) == d
  {
    var s := Nibble(d);
    var a, b, c := s[..3], s[..2], s[..1];
    assert a[..2] == b && b[..1] == c && c[..0] == "";
    assert Bin2Int(c) == Bit(s[0]);
    assert Bin2Int(b) == 2 * Bit(s[0]) + Bit(s[1]);
    assert Bin2Int(a) == 4 * Bit(s[0]) + 2 * Bit(s[1]) + Bit(s[2]);
    assert Bin2Int(s) == 8 * Bit(s[0]) + 4 * Bit(s[1]) + 2 * Bit(s[2]) + Bit(s[3]);
  }

  lemma FourBits()
    ensures Pow2(4) == 16
  {
    assert Pow2(2) == 4;
  }

  lemma JoinMore(ds: seq<nat>)
    requires ds != [] && forall k :: 0 <= k < |ds| ==> ds[k] < 16
    ensures var front := Join(ds[..|ds|-1]);
      Bits(front) ==> Bits(Join(ds)) && Bin2Int(Join(ds)) == Bin2Int(front) * 16 + ds[|ds|-1]
  {
    hide Bin2Int, Nibble;
    var k := |ds| - 1;
    NibbleValue(ds[k]);
    ValueConcat(Join(ds[..k]), Nibble(ds[k]));
    FourBits();
  }

  lemma {:induction false} JoinValue(i: nat)
    ensures Bits(Join(Hex(i))) && Bin2Int(Join(Hex(i))) == i
  {
    hide Bin2Int;
    var ds := Hex(i);
    JoinMore(ds);
    if i < 16 {
      assert ds[..|ds|-1] == [];
      NothingValue();
    } else {
      assert ds[..|ds|-1] == Hex(i / 16);
      hide Hex, Join;
      JoinValue(i / 16);
    }
  }

  lemma NothingValue()
    ensures Bin2Int("") == 0
  {
  }

  lemma ZerosValue(n: nat)
    ensures Bits(Zeros(n)) && Bin2Int(Zeros(n)) == 0
  {
    ZeroValue(Zeros(n));
  }

  /**
   An error exactly when i does not fit, and otherwise the n digits of i; for n == 0 no error, but all
   digits of i.
   */
  lemma Int2BinFits(i: nat, n: nat)
    ensures Int2Bin(i, n) == ValueError <==> n >= 1 && i >= Pow2(n)
    ensures n == 0 || i < Pow2(n) ==>
      var s := Int2Bin(i, n).value;
      Bits(s) && Bin2Int(s) == i && |s| == if n == 0 then |Join(Hex(i))| else n
  {
    JoinValue(i);
    Int2BinIs(i, n);
    hide Hex, Join, Pow2, Bin2Int, Zeros, Bits, Int2Bin;
    Fits(Join(Hex(i)), n);
  }

  /** What holds of the digits that are cut off and padded. */
  lemma Fits(s: string, n: nat)
    requires Bits(s)
    ensures var cut := Cut(s, n);
      && ('1' in s[..cut] <==> n >= 1 && Bin2Int(s) >= Pow2(n))
      && ('1' !in s[..cut] ==>
            var t := Zeros(Pad(s, n)) + s[cut..];
            Bits(t) && Bin2Int(t) == Bin2Int(s) && |t| == if n == 0 then |s| else n)
  {
    hide Pow2, Bin2Int, Zeros, Bits;
    var cut := Cut(s, n);
    if n > 0 {
      CutValue(s, cut, n);
    }
    if '1' !in s[..cut] {
      CutAndPad(s, cut, Pad(s, n));
    }
  }

  /** Where Python's slices cut the digits, and how many zeros are put in front. */
  function Cut(s: string, n: nat): (cut: nat)
    ensures cut <= |s| && (n == 0 ==> s[..cut] == "")
  {
    if n == 0 || n > |s| then 0 else |s| - n
  }

  function Pad(s: string, n: nat): nat {
    if n > |s| then n - |s| else 0
  }

  lemma Int2BinIs(i: nat, n: nat)
    ensures var s := Join(Hex(i));
      var cut := Cut(s, n);
      Int2Bin(i, n) == if '1' in s[..cut] then ValueError else Ok(Zeros(Pad(s, n)) + s[cut..])
  {
    hide Hex, Join, Zeros;
  }

  /** Cutting off zeros at the front and putting others there does not change the value. */
  lemma CutAndPad(s: string, cut: nat, pad: nat)
    requires Bits(s) && cut <= |s| && '1' !in s[..cut]
    ensures var t := Zeros(pad) + s[cut..]; Bits(t) && Bin2Int(t) == Bin2Int(s) && |t| == pad + |s| - cut
  {
    hide Bin2Int, Pow2;
    assert s == s[..cut] + s[cut..];
    ValueConcat(s[..cut], s[cut..]);
    ZeroValue(s[..cut]);
    ZerosValue(pad);
    ValueConcat(Zeros(pad), s[cut..]);
  }

  /** The part in front of the last n digits is zero exactly when the value fits into n bits. */
  lemma CutValue(s: string, cut: nat, n: nat)
    requires Bits(s) && cut == if n > |s| then 0 else |s| - n
    ensures '1' in s[..cut] <==> Bin2Int(s) >= Pow2(n)
  {
    hide Bin2Int, Pow2;
    var front, back := s[..cut], s[cut..];
    assert s == front + back;
    ValueConcat(front, back);
    ZeroValue(front);
    ValueBound(back);
    if n > |s| {
      ShorterIsSmaller(|s|, n);
    } else {
      Splits(Bin2Int(front), Pow2(n), Bin2Int(back), Bin2Int(s));
    }
  }

  lemma {:induction false} ShorterIsSmaller(m: nat, n: nat)
    requires m <= n
    ensures Pow2(m) <= Pow2(n)
    decreases n
  {
    if m < n {
      ShorterIsSmaller(m, n - 1);
    }
  }

  lemma Splits(q: nat, p: nat, r: nat, i: nat)
    requires i == q * p + r && r < p
    ensures i >= p <==> q > 0
  {
    if q > 0 {
      assert q * p >= p;
    }
  }

  // ---------------------------------------------------------------- binary_range

  /** v holds the digits with the least significant one first. */
  function LsbValue(v: seq<char>): nat {
    if v == [] then 0 else Bit(v[0]) + 2 * LsbValue(v[1..])
  }

  function Reversed(v: seq<char>): (s: string)
    ensures |s| == |v|
  {
    if v == [] then "" else Reversed(v[1..]) + [v[0]]
  }

  lemma {:induction false} ReversedValue(v: seq<char>)
    requires Bits(v)
    ensures Bin2Int(Reversed(v)) == LsbValue(v) && Bits(Reversed(v))
  {
    if v != [] {
      ReversedValue(v[1..]);
      var s := Reversed(v);
      assert s[..|s|-1] == Reversed(v[1..]);
    }
  }

  lemma {:induction false} SetDigit(v: seq<char>, i: nat, c: char)
    requires i < |v|
    ensures LsbValue(v[i := c]) + Bit(v[i]) * Pow2(i) == LsbValue(v) + Bit(c) * Pow2(i)
    decreases |v|
  {
    if i == 0 {
      assert v[0 := c][1..] == v[1..];
    } else {
      SetDigit(v[1..], i - 1, c);
      assert v[i := c][1..] == v[1..][i-1 := c];
      Doubled(Bit(v[i]), Pow2(i - 1), Pow2(i));
      Doubled(Bit(c), Pow2(i - 1), Pow2(i));
    }
  }

  lemma {:induction false} LsbBound(v: seq<char>)
    ensures LsbValue(v) < Pow2(|v|)
  {
    if v != [] {
      LsbBound(v[1..]);
    }
  }

  lemma {:induction false} AllZero(v: seq<char>)
    requires forall i :: 0 <= i < |v| ==> v[i] == '0'
    ensures LsbValue(v) == 0
  {
    if v != [] {
      AllZero(v[1..]);
    }
  }

  /** Lines 645-647: a reversed copy, as a string. */
  method ReverseCopy(v: array<char>) returns (s: string)
    ensures s == Reversed(v[..])
  {
    s := "";
    for i := v.Length downto 0
      invariant s == Reversed(v[i..])
    {
      assert v[i..][1..] == v[i+1..];
      s := s + [v[i]];
    }
    assert v[0..] == v[..];
  }

  /** Lines 650-659: the carry runs up from digit 0 until a digit turns to 1, or out at the top. */
  method Increment(v: array<char>, toggle: array<int>)
    requires toggle.Length == v.Length + 1 && Bits(v[..])
    requires toggle[0] == 1 && forall j :: 1 <= j < toggle.Length ==> toggle[j] == 0
    modifies v, toggle
    ensures Bits(v[..]) && (toggle[v.Length] == 0 || toggle[v.Length] == 1)
    ensures LsbValue(v[..]) + (if toggle[v.Length] == 1 then Pow2(v.Length) else 0) == LsbValue(old(v[..])) + 1
  {
    var i := 0;
    while i < v.Length && toggle[i] == 1
      invariant 0 <= i <= v.Length && Bits(v[..])
      invariant (toggle[i] == 0 || toggle[i] == 1) && forall j :: i < j < toggle.Length ==> toggle[j] == 0
      invariant LsbValue(v[..]) + toggle[i] * Pow2(i) == LsbValue(old(v[..])) + 1
      invariant toggle[i] == 0 ==> i > 0
    {
      hide LsbValue;
      ghost var digits := v[..];
      if v[i] == '0' {
        SetDigit(digits, i, '1');
        v[i] := '1';
        assert v[..] == digits[i := '1'];
        toggle[i+1] := 0;
      } else {
        assert digits[i] == '1';
        SetDigit(digits, i, '0');
        v[i] := '0';
        assert v[..] == digits[i := '0'];
        toggle[i+1] := 1;
      }
      i := i + 1;
    }
  }

  /** Entry k has the given width and the value k. */
  predicate Numbered(l: seq<string>, bits: nat) {
    forall k :: 0 <= k < |l| ==> |l[k]| == bits && Bits(l[k]) && Bin2Int(l[k]) == k
  }

  /** All strings of the given width, in order; none at all for width 0. */
  method BinaryRange(bits: nat) returns (l: seq<string>)
    ensures |l| == if bits == 0 then 0 else Pow2(bits)
    ensures Numbered(l, bits)
    ensures forall k :: 0 <= k < |l| ==> Int2Bin(k, bits) == Ok(l[k])
  {
    l := [];
    var v := new char[bits](_ => '0');
    var toggle := new int[bits + 1](i => if i == 0 then 1 else 0);
    AllZero(v[..]);
    while toggle[bits] != 1
      invariant v.Length == bits && toggle.Length == bits + 1 && Bits(v[..])
      invariant bits == 0 ==> l == [] && toggle[bits] == 1
      invariant bits > 0 ==> toggle[bits] == 0 || toggle[bits] == 1
      invariant bits > 0 ==> LsbValue(v[..]) + (if toggle[bits] == 1 then Pow2(bits) else 0) == |l|
      invariant toggle[bits] == 1 ==> bits == 0 || |l| == Pow2(bits)
      invariant Numbered(l, bits)
      invariant fresh(v) && fresh(toggle)
      decreases Pow2(bits) - |l|
    {
      hide LsbValue, Bin2Int, Reversed, Pow2, Bits;
      var s := ReverseCopy(v);
      ReversedValue(v[..]);
      LsbBound(v[..]);
      l := l + [s];
      toggle := new int[bits + 1](i => if i == 0 then 1 else 0);
      Increment(v, toggle);
      LsbBound(v[..]);
    }
    hide Int2Bin, LsbValue, Bin2Int, Bits;
    forall k | 0 <= k < |l|
      ensures Int2Bin(k, bits) == Ok(l[k])
    {
      assert bits > 0 && k < Pow2(bits);
      Int2BinFits(k, bits);
      ValueIsInjective(Int2Bin(k, bits).value, l[k]);
    }
  }
}

/** gray_encode of rad_util.py. */
module GrayCode {
  import opened Basics

  function XorBit(x: nat, y: nat): (r: nat)
    ensures r < 2
  {
    if x == y then 0 else 1
  }

  /** Bitwise exclusive or. */
  function Xor(a: nat, b: nat): nat {
    if a == 0 && b == 0 then 0 else 2 * Xor(a / 2, b / 2) + XorBit(a % 2, b % 2)
  }

  function GrayEncode(i: nat): nat {
    Xor(i, i / 2)
  }

  /** In how many bits two numbers differ. */
  function Distance(a: nat, b: nat): nat {
    if a == 0 && b == 0 then 0 else Distance(a / 2, b / 2) + XorBit(a % 2, b % 2)
  }

  /** The inverse of GrayEncode: each bit is the parity of the code's bits from there upwards. */
  function GrayDecode(g: nat): nat {
    if g == 0 then 0 else 2 * GrayDecode(g / 2) + XorBit(g % 2, GrayDecode(g / 2) % 2)
  }

  lemma Halves(h: nat, r: nat, n: nat)
    requires r < 2 && n == 2 * h + r
    ensures n / 2 == h && n % 2 == r
  {
  }

  lemma GrayParts(i: nat)
    ensures GrayEncode(i) / 2 == GrayEncode(i / 2) && GrayEncode(i) % 2 == XorBit(i % 2, i / 2 % 2)
  {
    hide XorBit;
    if i > 0 {
      Halves(Xor(i / 2, i / 2 / 2), XorBit(i % 2, i / 2 % 2), GrayEncode(i));
    } else {
      assert XorBit(0, 0) == 0 by { SameBit(0); }
    }
  }

  lemma SameBit(x: nat)
    ensures XorBit(x, x) == 0
  {
  }

  lemma {:induction false} NoDistance(a: nat)
    ensures Distance(a, a) == 0
  {
    if a != 0 {
      NoDistance(a / 2);
    }
  }

  lemma DistanceStep(a: nat, b: nat)
    ensures Distance(a, b) == Distance(a / 2, b / 2) + XorBit(a % 2, b % 2)
  {
    hide XorBit;
    SameBit(0);
  }

  /** Neighbours have codes that differ in exactly one bit. */
  lemma {:induction false} GrayNeighbours(i: nat)
    ensures Distance(GrayEncode(i), GrayEncode(i + 1)) == 1
  {
    GrayParts(i);
    GrayParts(i + 1);
    assert i % 2 == 0 ==> (i + 1) / 2 == i / 2 && (i + 1) % 2 == 1;
    assert i % 2 == 1 ==> (i + 1) / 2 == i / 2 + 1 && (i + 1) % 2 == 0 && i / 2 < i;
    assert i / 2 % 2 != (i / 2 + 1) % 2;
    DistanceStep(GrayEncode(i), GrayEncode(i + 1));
    hide Distance, GrayEncode;
    if i % 2 == 0 {
      NoDistance(GrayEncode(i / 2));
    } else {
      GrayNeighbours(i / 2);
    }
  }

  lemma DecodeStep(g: nat)
    ensures GrayDecode(g) / 2 == GrayDecode(g / 2) && GrayDecode(g) % 2 == XorBit(g % 2, GrayDecode(g / 2) % 2)
  {
    hide XorBit;
    if g > 0 {
      Halves(GrayDecode(g / 2), XorBit(g % 2, GrayDecode(g / 2) % 2), GrayDecode(g));
    } else {
      SameBit(0);
    }
  }

  lemma XorTwice(x: nat, y: nat)
    requires x < 2 && y < 2
    ensures XorBit(XorBit(x, y), y) == x
  {
  }

  lemma {:induction false} DecodeEncode(i: nat)
    ensures GrayDecode(GrayEncode(i)) == i
  {
    if i > 0 {
      GrayParts(i);
      DecodeStep(GrayEncode(i));
      DecodeEncode(i / 2);
      XorTwice(i % 2, i / 2 % 2);
      hide GrayDecode, GrayEncode, XorBit;
    }
  }

  lemma {:induction false} EncodeDecode(g: nat)
    ensures GrayEncode(GrayDecode(g)) == g
  {
    if g > 0 {
      DecodeStep(g);
      GrayParts(GrayDecode(g));
      EncodeDecode(g / 2);
      XorTwice(g % 2, GrayDecode(g / 2) % 2);
      hide GrayDecode, GrayEncode, XorBit;
    }
  }

  lemma {:induction false} GrayBound(i: nat, n: nat)
    ensures i < Pow2(n) <==> GrayEncode(i) < Pow2(n)
    decreases n
  {
    GrayParts(i);
    if n > 0 {
      GrayBound(i / 2, n - 1);
    } else {
      GrayIsZero(i);
    }
  }

  lemma GrayIsZero(i: nat)
    ensures GrayEncode(i) == 0 <==> i == 0
  {
    DecodeEncode(i);
  }

  /** For every n, gray_encode maps the numbers below 2^n one to one onto themselves. */
  lemma GrayIsBijection(n: nat)
    ensures forall i: nat :: i < Pow2(n) ==> GrayEncode(i) < Pow2(n)
    ensures forall i: nat, j: nat :: GrayEncode(i) == GrayEncode(j) ==> i == j
    ensures forall g: nat :: g < Pow2(n) ==> GrayDecode(g) < Pow2(n) && GrayEncode(GrayDecode(g)) == g
  {
    forall i: nat
      ensures i < Pow2(n) ==> GrayEncode(i) < Pow2(n)
    {
      GrayBound(i, n);
    }
    forall i: nat, j: nat | GrayEncode(i) == GrayEncode(j)
      ensures i == j
    {
      DecodeEncode(i);
      DecodeEncode(j);
    }
    forall g: nat | g < Pow2(n)
      ensures GrayDecode(g) < Pow2(n) && GrayEncode(GrayDecode(g)) == g
    {
      EncodeDecode(g);
      GrayBound(GrayDecode(g), n);
    }
  }
}

/** permutations of rad_util.py. */
module Permutations {
  import opened Basics

  function Factorial(n: nat): nat {
    if n == 0 then 1 else n * Factorial(n - 1)
  }

  /** new_list.insert(i, item). */
  function Insert<T>(s: seq<T>, i: nat, item: T): seq<T>
    requires i <= |s|
  {
    s[..i] + [item] + s[i..]
  }

  /** item at the first k places of s. */
  function Inserts<T>(s: seq<T>, item: T, k: nat): seq<seq<T>>
    requires k <= |s| + 1
  {
    if k == 0 then [] else Inserts(s, item, k - 1) + [Insert(s, k - 1, item)]
  }

  /** item at every place of every list. */
  function AllInserts<T>(lists: seq<seq<T>>, item: T): seq<seq<T>> {
    if lists == [] then []
    else
      var last := lists[|lists|-1];
      AllInserts(lists[..|lists|-1], item) + Inserts(last, item, |last| + 1)
  }

  function Perms<T>(s: seq<T>): seq<seq<T>> {
    if |s| <= 1 then [s] else AllInserts(Perms(s[1..]), s[0])
  }

  method PermutationsOf<T>(inputList: seq<T>) returns (outLists: seq<seq<T>>)
    ensures outLists == Perms(inputList)
    decreases |inputList|
  {
    if |inputList| <= 1 {
      return [inputList];
    }
    var item := inputList[0];
    var subLists := PermutationsOf(inputList[1..]);
    PermsOfMore(inputList);
    hide Perms, AllInserts, Inserts;
    outLists := [];
    for n := 0 to |subLists|
      invariant outLists == AllInserts(subLists[..n], item)
    {
      PermsLength(inputList[1..], n);
      var inserted := InsertEverywhere(subLists[n], item, |inputList|);
      outLists := outLists + inserted;
      MoreInserts(subLists, item, n);
    }
    assert subLists[..|subLists|] == subLists;
  }

  /** Lines 319-322 for one sub_list, which is one item shorter than input_list. */
  method InsertEverywhere<T>(subList: seq<T>, item: T, length: nat) returns (newLists: seq<seq<T>>)
    requires length == |subList| + 1
    ensures newLists == Inserts(subList, item, |subList| + 1)
  {
    newLists := [];
    for i := 0 to length
      invariant newLists == Inserts(subList, item, i)
    {
      var newList := subList[..i] + [item] + subList[i..];
      newLists := newLists + [newList];
    }
  }

  lemma MoreInserts<T>(lists: seq<seq<T>>, item: T, n: nat)
    requires n < |lists|
    ensures AllInserts(lists[..n+1], item) == AllInserts(lists[..n], item) + Inserts(lists[n], item, |lists[n]| + 1)
  {
    hide Inserts;
    assert lists[..n+1][..n] == lists[..n];
  }

  lemma PermsLength<T>(s: seq<T>, n: nat)
    requires n < |Perms(s)|
    ensures |Perms(s)[n]| == |s|
  {
    AllPermute(s);
    assert Perms(s)[n] in Perms(s);
    SameLength(Perms(s)[n], s);
  }

  lemma SameLength<T>(a: seq<T>, b: seq<T>)
    requires multiset(a) == multiset(b)
    ensures |a| == |b|
  {
    assert |multiset(a)| == |a|;
  }

  lemma InsertBag<T>(s: seq<T>, i: nat, item: T)
    requires i <= |s|
    ensures multiset(Insert(s, i, item)) == multiset(s) + multiset{item}
  {
    assert s == s[..i] + s[i..];
  }

  lemma {:induction false} InInserts<T>(s: seq<T>, item: T, k: nat, p: seq<T>)
    requires k <= |s| + 1
    ensures p in Inserts(s, item, k) <==> exists i :: 0 <= i < k && p == Insert(s, i, item)
    ensures |Inserts(s, item, k)| == k
  {
    hide Insert;
    if k > 0 {
      InInserts(s, item, k - 1, p);
    }
  }

  lemma {:induction false} InAllInserts<T>(lists: seq<seq<T>>, item: T, p: seq<T>)
    ensures p in AllInserts(lists, item)
       <==> exists m, i :: 0 <= m < |lists| && 0 <= i <= |lists[m]| && p == Insert(lists[m], i, item)
    decreases |lists|
  {
    hide Insert, Inserts;
    if lists != [] {
      var k := |lists| - 1;
      InAllInserts(lists[..k], item, p);
      InInserts(lists[k], item, |lists[k]| + 1, p);
      if m, i :| 0 <= m < |lists| && 0 <= i <= |lists[m]| && p == Insert(lists[m], i, item) {
        if m < k {
          assert lists[..k][m] == lists[m];
        }
      }
    }
  }

  /** Every result is a rearrangement of the input. */
  lemma {:induction false} AllPermute<T>(s: seq<T>)
    ensures forall p :: p in Perms(s) ==> multiset(p) == multiset(s)
    decreases |s|
  {
    if |s| > 1 {
      AllPermute(s[1..]);
      assert s == [s[0]] + s[1..];
      forall p | p in Perms(s)
        ensures multiset(p) == multiset(s)
      {
        var lists := Perms(s[1..]);
        InAllInserts(lists, s[0], p);
        var m, i :| 0 <= m < |lists| && 0 <= i <= |lists[m]| && p == Insert(lists[m], i, s[0]);
        assert lists[m] in lists;
        InsertBag(lists[m], i, s[0]);
      }
    }
  }

  lemma PermsOfMore<T>(s: seq<T>)
    requires |s| > 1
    ensures Perms(s) == AllInserts(Perms(s[1..]), s[0])
  {
  }

  /** A list without one of its items. */
  lemma TakeOut<T>(p: seq<T>, x: T, rest: multiset<T>) returns (q: seq<T>, i: nat)
    requires multiset(p) == rest + multiset{x}
    ensures i <= |q| && p == Insert(q, i, x) && multiset(q) == rest
  {
    assert x in multiset(p);
    i :| 0 <= i < |p| && p[i] == x;
    q := p[..i] + p[i+1..];
    assert p == Insert(q, i, x);
    InsertBag(q, i, x);
    assert multiset(q) == multiset(p) - multiset{x} == rest;
  }

  /** Every rearrangement of the input is a result. */
  lemma {:induction false} AllFound<T>(s: seq<T>, p: seq<T>)
    requires multiset(p) == multiset(s)
    ensures p in Perms(s)
    decreases |s|
  {
    SameLength(p, s);
    if |s| > 1 {
      hide Perms, AllInserts, Insert;
      var x, lists := s[0], Perms(s[1..]);
      assert s == s[1..] + [x] || s == [x] + s[1..];
      var q, i := TakeOut(p, x, multiset(s[1..]));
      PermsOfMore(s);
      AllFound(s[1..], q);
      var m :| 0 <= m < |lists| && lists[m] == q;
      InAllInserts(lists, x, p);
    } else if |s| == 1 {
      assert s == [s[0]] && p == [p[0]];
      assert p[0] in multiset(s);
    }
  }

  lemma {:induction false} AllInsertsCount<T>(lists: seq<seq<T>>, item: T, n: nat)
    requires forall m :: 0 <= m < |lists| ==> |lists[m]| == n
    ensures |AllInserts(lists, item)| == |lists| * (n + 1)
    decreases |lists|
  {
    if lists != [] {
      var k := |lists| - 1;
      AllInsertsCount(lists[..k], item, n);
      InInserts(lists[k], item, n + 1, lists[k]);
      assert k * (n + 1) + (n + 1) == (k + 1) * (n + 1);
    }
  }

  /** There are n! of them. */
  lemma {:induction false} PermsCount<T>(s: seq<T>)
    ensures |Perms(s)| == Factorial(|s|)
    decreases |s|
  {
    hide AllInserts;
    if |s| > 1 {
      var lists := Perms(s[1..]);
      PermsCount(s[1..]);
      AllPermute(s[1..]);
      forall m | 0 <= m < |lists|
        ensures |lists[m]| == |s| - 1
      {
        assert lists[m] in lists;
        SameLength(lists[m], s[1..]);
      }
      AllInsertsCount(lists, s[0], |s| - 1);
    }
  }

  /** With a new item, where it was inserted and into what can be read off the result. */
  lemma InsertIsInjective<T>(s: seq<T>, i: nat, t: seq<T>, j: nat, item: T)
    requires i <= |s| && j <= |t| && item !in s && item !in t && Insert(s, i, item) == Insert(t, j, item)
    ensures i == j && s == t
  {
    var p := Insert(s, i, item);
    assert p[i] == item && p[j] == item;
    assert forall k :: 0 <= k < |p| && k != i ==> p[k] in s;
    assert s == p[..i] + p[i+1..] && t == p[..j] + p[j+1..];
  }

  lemma {:induction false} InsertsDistinct<T>(s: seq<T>, item: T, k: nat)
    requires k <= |s| + 1 && item !in s
    ensures Distinct(Inserts(s, item, k))
  {
    if k > 0 {
      InsertsDistinct(s, item, k - 1);
      var before, last := Inserts(s, item, k - 1), Insert(s, k - 1, item);
      InInserts(s, item, k - 1, last);
      if last in before {
        var i :| 0 <= i < k - 1 && last == Insert(s, i, item);
        InsertIsInjective(s, i, s, k - 1, item);
        assert false;
      }
    }
  }

  lemma {:induction false} AllInsertsDistinct<T>(lists: seq<seq<T>>, item: T)
    requires Distinct(lists) && forall m :: 0 <= m < |lists| ==> item !in lists[m]
    ensures Distinct(AllInserts(lists, item))
    decreases |lists|
  {
    if lists != [] {
      var k := |lists| - 1;
      var a, b := AllInserts(lists[..k], item), Inserts(lists[k], item, |lists[k]| + 1);
      AllInsertsDistinct(lists[..k], item);
      InsertsDistinct(lists[k], item, |lists[k]| + 1);
      forall p | p in a
        ensures p !in b
      {
        InAllInserts(lists[..k], item, p);
        InInserts(lists[k], item, |lists[k]| + 1, p);
        var m, i :| 0 <= m < k && 0 <= i <= |lists[m]| && p == Insert(lists[m], i, item);
        forall j | 0 <= j <= |lists[k]|
          ensures p != Insert(lists[k], j, item)
        {
          if p == Insert(lists[k], j, item) {
            InsertIsInjective(lists[m], i, lists[k], j, item);
          }
        }
      }
      DistinctConcat(a, b);
    }
  }

  lemma DistinctConcat<T>(a: seq<T>, b: seq<T>)
    requires Distinct(a) && Distinct(b) && forall p :: p in a ==> p !in b
    ensures Distinct(a + b)
  {
    assert forall i :: 0 <= i < |a| ==> a[i] in a;
    assert forall j :: 0 <= j < |b| ==> b[j] in b;
  }

  /** With distinct items no result appears twice. */
  lemma {:induction false} PermsDistinct<T>(s: seq<T>)
    requires Distinct(s)
    ensures Distinct(Perms(s))
    decreases |s|
  {
    if |s| > 1 {
      var lists := Perms(s[1..]);
      PermsDistinct(s[1..]);
      AllPermute(s[1..]);
      forall m | 0 <= m < |lists|
        ensures s[0] !in lists[m]
      {
        assert lists[m] in lists;
        assert s[0] !in s[1..];
        assert s[0] !in multiset(s[1..]);
      }
      AllInsertsDistinct(lists, s[0]);
    }
  }
}
