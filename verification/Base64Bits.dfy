/** The base64url text of a byte string is its bits, cut into sixes (section 4 of RFC 4648, with the alphabet of
    section 5). */
module Base64Bits {
  import opened Basics
  import opened Base64Url

  const UPPER := "ABCDEFGHIJKLMNOPQRSTUVWXYZ"
  const LOWER := "abcdefghijklmnopqrstuvwxyz"
  const DIGITS := "0123456789"
  const ALPHABET := UPPER + LOWER + DIGITS + "-_"

  lemma UpperCase(v: nat)
    requires v < 26
    ensures UPPER[v] == Symbol(v)
  {
  }

  lemma LowerCase(v: nat)
    requires v < 26
    ensures LOWER[v] == Symbol(26 + v)
  {
  }

  /** The symbols are those of the table, in its order, and they are read back by their place in it. */
  lemma SymbolsAreTheTable(v: Sextet, c: char)
    ensures |ALPHABET| == 64 && Symbol(v) == ALPHABET[v]
    ensures ValueOf(c) == v <==> c == ALPHABET[v]
  {
    if v < 26 {
      UpperCase(v);
    } else if v < 52 {
      LowerCase(v - 26);
    }
    SymbolValue(v);
    if ValueOf(c) >= 0 {
      ValueSymbol(c);
    }
  }

  // ---- bits ----

  /** The lowest `k` bits of a number, the highest first. */
  function Bits(n: nat, k: nat): (r: seq<bool>)
    ensures |r| == k
  {
    if k == 0 then [] else Bits(n / 2, k - 1) + [n % 2 == 1]
  }

  function Shift(n: nat, k: nat): nat {
    if k == 0 then n else 2 * Shift(n, k - 1)
  }

  /** Two numbers side by side. */
  lemma {:induction false} BitsJoin(a: nat, b: nat, k: nat, m: nat)
    requires b < Shift(1, m)
    ensures Bits(Shift(a, m) + b, k + m) == Bits(a, k) + Bits(b, m)
    decreases m
  {
    if m == 0 {
      assert Bits(a, k) + [] == Bits(a, k);
    } else {
      BitsJoin(a, b / 2, k, m - 1);
      assert Bits(a, k) + (Bits(b / 2, m - 1) + [b % 2 == 1]) == Bits(a, k) + Bits(b / 2, m - 1) + [b % 2 == 1];
    }
  }

  lemma Shifts(n: nat)
    ensures Shift(n, 0) == n && Shift(n, 2) == 4 * n && Shift(n, 4) == 16 * n && Shift(n, 6) == 64 * n
    ensures Shift(n, 8) == 256 * n
  {
    assert Shift(n, 1) == 2 * n;
    assert Shift(n, 2) == 4 * n;
    assert Shift(n, 3) == 8 * n;
    assert Shift(n, 4) == 16 * n;
    assert Shift(n, 5) == 32 * n;
    assert Shift(n, 6) == 64 * n;
    assert Shift(n, 7) == 128 * n;
  }

  function ByteBits(data: seq<Byte>): (r: seq<bool>)
    ensures |r| == 8 * |data|
  {
    if data == [] then [] else Bits(data[0], 8) + ByteBits(data[1..])
  }

  function SymbolBits(s: string): (r: seq<bool>)
    requires InAlphabet(s)
    ensures |r| == 6 * |s|
  {
    if s == [] then [] else Bits(ValueOf(s[0]), 6) + SymbolBits(s[1..])
  }

  /** So many zeros fill up the last symbol. */
  function Padding(n: nat): seq<bool> {
    if n % 3 == 0 then [] else if n % 3 == 1 then [false, false, false, false] else [false, false]
  }

  // ---- encoding ----

  lemma TwoParts(n: nat, high: nat, low: nat, k: nat, m: nat)
    requires low < Shift(1, m) && n == Shift(high, m) + low
    ensures Bits(n, k + m) == Bits(high, k) + Bits(low, m)
  {
    BitsJoin(high, low, k, m);
  }

  /** Four sixes are three eights. */
  lemma GroupBits(a: Byte, b: Byte, c: Byte)
    ensures Bits(a / 4, 6) + Bits(a % 4 * 16 + b / 16, 6) + Bits(b % 16 * 4 + c / 64, 6) + Bits(c % 64, 6)
            == Bits(a, 8) + Bits(b, 8) + Bits(c, 8)
  {
    hide Bits, Shift;
    Shifts(1);
    Shifts(a / 4);
    TwoParts(a, a / 4, a % 4, 6, 2);
    Shifts(a % 4);
    TwoParts(a % 4 * 16 + b / 16, a % 4, b / 16, 2, 4);
    Shifts(b / 16);
    TwoParts(b, b / 16, b % 16, 4, 4);
    Shifts(b % 16);
    TwoParts(b % 16 * 4 + c / 64, b % 16, c / 64, 4, 2);
    Shifts(c / 64);
    TwoParts(c, c / 64, c % 64, 2, 6);
    var a1, a2, b1, b2, c1, c2 := Bits(a / 4, 6), Bits(a % 4, 2), Bits(b / 16, 4), Bits(b % 16, 4), Bits(c / 64, 2),
                                  Bits(c % 64, 6);
    assert a1 + (a2 + b1) + (b2 + c1) + c2 == (a1 + a2) + (b1 + b2) + (c1 + c2);
  }

  lemma ConsSymbol(v: Sextet, s: string)
    requires InAlphabet(s)
    ensures InAlphabet([Symbol(v)] + s) && SymbolBits([Symbol(v)] + s) == Bits(v, 6) + SymbolBits(s)
  {
    hide Symbol, ValueOf, Bits;
    SymbolValue(v);
    assert ([Symbol(v)] + s)[1..] == s;
  }

  lemma FourTogether(w: seq<bool>, x: seq<bool>, y: seq<bool>, z: seq<bool>, rest: seq<bool>)
    ensures w + (x + (y + (z + rest))) == w + x + y + z + rest
  {
  }

  lemma ThreeTogether(x: seq<bool>, y: seq<bool>, z: seq<bool>, rest: seq<bool>, more: seq<bool>)
    ensures x + (y + (z + rest)) + more == x + y + z + (rest + more)
  {
  }

  lemma GroupThen(x: Sextet, y: Sextet, z: Sextet, w: Sextet, s: string)
    requires InAlphabet(s)
    ensures var all := [Symbol(x), Symbol(y), Symbol(z), Symbol(w)] + s;
            InAlphabet(all) && SymbolBits(all) == Bits(x, 6) + Bits(y, 6) + Bits(z, 6) + Bits(w, 6) + SymbolBits(s)
  {
    hide Symbol, ValueOf, Bits, SymbolBits, InAlphabet;
    ConsSymbol(w, s);
    ConsSymbol(z, [Symbol(w)] + s);
    ConsSymbol(y, [Symbol(z)] + ([Symbol(w)] + s));
    ConsSymbol(x, [Symbol(y)] + ([Symbol(z)] + ([Symbol(w)] + s)));
    assert [Symbol(x), Symbol(y), Symbol(z), Symbol(w)] + s
           == [Symbol(x)] + ([Symbol(y)] + ([Symbol(z)] + ([Symbol(w)] + s)));
    FourTogether(Bits(x, 6), Bits(y, 6), Bits(z, 6), Bits(w, 6), SymbolBits(s));
  }

  lemma ZeroBits()
    ensures Bits(0, 8) == Bits(0, 4) + Padding(1) && Bits(0, 4) == Padding(1)
    ensures Bits(0, 6) == Padding(2) + Bits(0, 4) && Bits(0, 2) == Padding(2)
  {
    assert Bits(0, 2) == [false, false];
    assert Bits(0, 4) == [false, false, false, false];
    assert Bits(0, 6) == [false, false, false, false, false, false];
  }

  lemma ByteCons(b: Byte, rest: seq<Byte>)
    ensures ByteBits([b] + rest) == Bits(b, 8) + ByteBits(rest)
  {
    hide Bits;
    assert ([b] + rest)[1..] == rest;
  }

  lemma ThreeBytes(a: Byte, b: Byte, c: Byte, rest: seq<Byte>)
    ensures ByteBits([a] + ([b] + ([c] + rest))) == Bits(a, 8) + (Bits(b, 8) + (Bits(c, 8) + ByteBits(rest)))
  {
    hide Bits, ByteBits;
    ByteCons(c, rest);
    ByteCons(b, [c] + rest);
    ByteCons(a, [b] + ([c] + rest));
  }

  /** One byte makes two symbols: its eight bits and four zeros. */
  lemma OneByteBits(a: Byte)
    ensures var s := [Symbol(a / 4), Symbol(a % 4 * 16)];
            InAlphabet(s) && SymbolBits(s) == Bits(a, 8) + Padding(1)
  {
    hide Symbol, ValueOf, Bits, InAlphabet, Shift;
    EmptyBits();
    ConsSymbol(a % 4 * 16, []);
    ConsSymbol(a / 4, [Symbol(a % 4 * 16)] + []);
    assert [Symbol(a / 4)] + ([Symbol(a % 4 * 16)] + []) == [Symbol(a / 4), Symbol(a % 4 * 16)];
    Shifts(1);
    Shifts(a / 4);
    Shifts(a % 4);
    TwoParts(a, a / 4, a % 4, 6, 2);
    TwoParts(a % 4 * 16, a % 4, 0, 2, 4);
    ZeroBits();
    Together(Bits(a / 4, 6), Bits(a % 4, 2), Padding(1));
  }

  /** Two bytes make three: their sixteen bits and two zeros. */
  lemma TwoByteBits(a: Byte, b: Byte)
    ensures var s := [Symbol(a / 4), Symbol(a % 4 * 16 + b / 16), Symbol(b % 16 * 4)];
            InAlphabet(s) && SymbolBits(s) == Bits(a, 8) + Bits(b, 8) + Padding(2)
  {
    hide Symbol, ValueOf, Bits, InAlphabet, Shift;
    var y, z := a % 4 * 16 + b / 16, b % 16 * 4;
    EmptyBits();
    ConsSymbol(z, []);
    ConsSymbol(y, [Symbol(z)] + []);
    ConsSymbol(a / 4, [Symbol(y)] + ([Symbol(z)] + []));
    assert [Symbol(a / 4)] + ([Symbol(y)] + ([Symbol(z)] + [])) == [Symbol(a / 4), Symbol(y), Symbol(z)];
    Shifts(1);
    Shifts(a / 4);
    Shifts(a % 4);
    Shifts(b / 16);
    Shifts(b % 16);
    TwoParts(a, a / 4, a % 4, 6, 2);
    TwoParts(y, a % 4, b / 16, 2, 4);
    TwoParts(b, b / 16, b % 16, 4, 4);
    TwoParts(z, b % 16, 0, 4, 2);
    ZeroBits();
    Crossed(Bits(a / 4, 6), Bits(a % 4, 2), Bits(b / 16, 4), Bits(b % 16, 4), Padding(2));
  }

  lemma EmptyBits()
    ensures InAlphabet([]) && SymbolBits([]) == [] && ByteBits([]) == []
  {
  }

  lemma Together(x: seq<bool>, y: seq<bool>, z: seq<bool>)
    ensures x + (y + z + []) == x + y + z
  {
  }

  lemma Crossed(x: seq<bool>, y: seq<bool>, z: seq<bool>, w: seq<bool>, end: seq<bool>)
    ensures x + (y + z + (w + end + [])) == x + y + (z + w) + end
  {
  }

  lemma TailBits(data: seq<Byte>)
    requires 1 <= |data| <= 2
    ensures InAlphabet(Encode(data)) && SymbolBits(Encode(data)) == ByteBits(data) + Padding(|data|)
  {
    hide Symbol, ValueOf, Six, Word, Bits, SymbolBits, InAlphabet;
    var a, b := data[0], if |data| == 2 then data[1] else 0;
    Sextets(a, b, 0);
    EmptyBits();
    if |data| == 1 {
      assert data[1..] == [];
      OneByteBits(a);
      assert a % 4 * 16 + b / 16 == a % 4 * 16;
    } else {
      assert data[1..][1..] == [] && ByteBits(data[1..]) == Bits(b, 8) + ByteBits([]);
      TwoByteBits(a, b);
      assert b % 16 * 4 + 0 / 64 == b % 16 * 4;
    }
  }

  lemma GroupIsItsBits(a: Byte, b: Byte, c: Byte, rest: seq<Byte>)
    requires InAlphabet(Encode(rest)) && SymbolBits(Encode(rest)) == ByteBits(rest) + Padding(|rest|)
    ensures var s := Group(a, b, c) + Encode(rest);
            && InAlphabet(s)
            && SymbolBits(s) == ByteBits([a] + ([b] + ([c] + rest))) + Padding(|rest| + 3)
  {
    hide Symbol, ValueOf, Six, Word, Bits, SymbolBits, ByteBits, InAlphabet, Encode, Group, Padding;
    SamePadding(|rest|);
    GroupSymbols(a, b, c, Encode(rest));
    ThreeBytes(a, b, c, rest);
    ThreeTogether(Bits(a, 8), Bits(b, 8), Bits(c, 8), ByteBits(rest), Padding(|rest|));
    OneMore(Bits(a, 8) + Bits(b, 8) + Bits(c, 8), SymbolBits(Encode(rest)), ByteBits(rest), Padding(|rest|));
  }

  lemma SamePadding(n: nat)
    ensures Padding(n + 3) == Padding(n)
  {
  }

  lemma OneMore(front: seq<bool>, all: seq<bool>, bits: seq<bool>, end: seq<bool>)
    requires all == bits + end
    ensures front + all == front + (bits + end)
  {
  }

  lemma GroupSymbols(a: Byte, b: Byte, c: Byte, s: string)
    requires InAlphabet(s)
    ensures InAlphabet(Group(a, b, c) + s)
    ensures SymbolBits(Group(a, b, c) + s) == Bits(a, 8) + Bits(b, 8) + Bits(c, 8) + SymbolBits(s)
  {
    hide Symbol, ValueOf, Six, Word, Bits, SymbolBits, InAlphabet;
    Sextets(a, b, c);
    GroupBits(a, b, c);
    GroupThen(a / 4, a % 4 * 16 + b / 16, b % 16 * 4 + c / 64, c % 64, s);
  }

  /** The bits of an encoding are the bits of the bytes, in order, filled up with zeros. */
  lemma {:induction false} EncodingIsTheBits(data: seq<Byte>)
    ensures InAlphabet(Encode(data)) && SymbolBits(Encode(data)) == ByteBits(data) + Padding(|data|)
    decreases |data|
  {
    hide Symbol, ValueOf, Six, Word, Bits, SymbolBits, ByteBits, InAlphabet;
    if data == [] {
      EmptyBits();
    } else if |data| < 3 {
      TailBits(data);
    } else {
      EncodingIsTheBits(data[3..]);
      GroupIsItsBits(data[0], data[1], data[2], data[3..]);
      assert data == [data[0]] + ([data[1]] + ([data[2]] + data[3..]));
    }
  }

  // ---- decoding ----

  /** Fewer pending bits than the number needs. */
  predicate Fits(low: nat, bits: nat)
    requires Pending(bits)
  {
    if bits == 0 then low == 0 else if bits == 2 then low < 4 else if bits == 4 then low < 16 else low < 64
  }

  /** One symbol appended to the pending bits gives a byte and the bits that then are pending. */
  lemma ByteLeaves(low: nat, v: Sextet, bits: nat)
    requires Pending(bits) && bits >= 2 && Fits(low, bits)
    ensures var w := low * 64 + v;
            && Above(w, bits - 2) < 256 && Fits(Below(w, bits - 2), bits - 2)
            && Bits(low, bits) + Bits(v, 6) == Bits(Above(w, bits - 2), 8) + Bits(Below(w, bits - 2), bits - 2)
  {
    hide Bits, Shift;
    var w := low * 64 + v;
    Shifts(1);
    Shifts(low);
    TwoParts(w, low, v, bits, 6);
    Shifts(Above(w, bits - 2));
    TwoParts(w, Above(w, bits - 2), Below(w, bits - 2), 8, bits - 2);
  }

  lemma {:induction false} LowIsTheBits(s: string, low: nat, bits: nat)
    requires Pending(bits) && Fits(low, bits) && InAlphabet(s)
    ensures var r := DecodeLow(s, low, bits);
            && r.Some? && 8 * |r.value| <= bits + 6 * |s| < 8 * |r.value| + 8
            && ByteBits(r.value) == (Bits(low, bits) + SymbolBits(s))[..8 * |r.value|]
    decreases |s|
  {
    hide ValueOf, Bits, Above, Below;
    if s != [] {
      var v, t := ValueOf(s[0]), s[1..];
      if bits == 0 {
        assert low * 64 + v == v;
        LowIsTheBits(t, v, 6);
        assert Bits(low, 0) + SymbolBits(s) == Bits(v, 6) + SymbolBits(t);
      } else {
        var w := low * 64 + v;
        var b, next := Above(w, bits - 2), Below(w, bits - 2);
        ByteLeaves(low, v, bits);
        assert b % 256 == b;
        LowIsTheBits(t, next, bits - 2);
        var rest := DecodeLow(t, next, bits - 2).value;
        assert ([b] + rest)[1..] == rest;
        assert Bits(low, bits) + (Bits(v, 6) + SymbolBits(t)) == Bits(low, bits) + Bits(v, 6) + SymbolBits(t);
        assert Bits(b, 8) + Bits(next, bits - 2) + SymbolBits(t) == Bits(b, 8) + (Bits(next, bits - 2) + SymbolBits(t));
      }
    }
  }

  /** Decoding any string over the alphabet gives its bits, cut into eights, as many as are full. */
  lemma DecodingIsTheBits(s: string)
    requires InAlphabet(s)
    ensures var r := Decode(s);
            && r.Some? && |r.value| == 6 * |s| / 8
            && ByteBits(r.value) == SymbolBits(s)[..8 * |r.value|]
  {
    hide ValueOf, Bits, DecodeLow, DecodeFrom;
    WrappingIsHarmless(s, 0, 0);
    LowIsTheBits(s, 0, 0);
    assert Bits(0, 0) + SymbolBits(s) == SymbolBits(s);
  }
}
