/** Unpadded base64url (sections 3.2 and 5 of RFC 4648), with the decoder's 32-bit accumulator. */
module Base64Url {
  import opened Basics

  type Byte = b: int | 0 <= b < 256
  type Sextet = v: int | 0 <= v < 64

  /** The alphabet of section 5: 'A'-'Z', 'a'-'z', '0'-'9', '-', '_'. */
  function Symbol(v: Sextet): char {
    if v < 26 then 'A' + v as char
    else if v < 52 then 'a' + (v - 26) as char
    else if v < 62 then '0' + (v - 52) as char
    else if v == 62 then '-'
    else '_'
  }

  function ValueOf(c: char): (v: int)
    ensures -1 <= v < 64
  {
    if 'A' <= c <= 'Z' then (c - 'A') as int
    else if 'a' <= c <= 'z' then (c - 'a') as int + 26
    else if '0' <= c <= '9' then (c - '0') as int + 52
    else if c == '-' then 62
    else if c == '_' then 63
    else -1
  }

  lemma SymbolValue(v: Sextet)
    ensures ValueOf(Symbol(v)) == v
  {
  }

  lemma ValueSymbol(c: char)
    requires ValueOf(c) >= 0
    ensures Symbol(ValueOf(c)) == c
  {
  }

  predicate InAlphabet(s: string) { forall i :: 0 <= i < |s| ==> ValueOf(s[i]) >= 0 }

  // ---- encoding ----

  /** Three bytes side by side. */
  function Word(a: nat, b: nat, c: nat): nat { a * 65536 + b * 256 + c }

  /** `n` shifted right by the given power of two and cut to six bits. */
  function Six(n: nat, power: nat): Sextet
    requires power > 0
  {
    n / power % 64
  }

  /** Four symbols for three bytes; two or three for what is left. */
  function Encode(data: seq<Byte>): string
    decreases |data|
  {
    if data == [] then []
    else if |data| == 1 then
      var v := Word(data[0], 0, 0);
      [Symbol(Six(v, 262144)), Symbol(Six(v, 4096))]
    else if |data| == 2 then
      var v := Word(data[0], data[1], 0);
      [Symbol(Six(v, 262144)), Symbol(Six(v, 4096)), Symbol(Six(v, 64))]
    else
      Group(data[0], data[1], data[2]) + Encode(data[3..])
  }

  function Group(a: Byte, b: Byte, c: Byte): string {
    var v := Word(a, b, c);
    [Symbol(Six(v, 262144)), Symbol(Six(v, 4096)), Symbol(Six(v, 64)), Symbol(Six(v, 1))]
  }

  method EncodeBytes(data: seq<Byte>) returns (out: string)
    ensures out == Encode(data)
  {
    hide Six, Symbol, Word, Encode;
    out := [];
    var i := 0;
    assert data[0..] == data;
    while i + 3 <= |data|
      invariant 0 <= i <= |data|
      invariant out + Encode(data[i..]) == Encode(data)
    {
      var v := Word(data[i], data[i + 1], data[i + 2]);
      EncodeStep(out, data, i);
      out := out + [Symbol(Six(v, 262144))] + [Symbol(Six(v, 4096))] + [Symbol(Six(v, 64))] + [Symbol(Six(v, 1))];
      i := i + 3;
    }
    EncodeTail(data[i..]);
    if i < |data| {
      var two := i + 1 < |data|;
      var v := Word(data[i], if two then data[i + 1] else 0, 0);
      out := out + [Symbol(Six(v, 262144))] + [Symbol(Six(v, 4096))];
      if two {
        out := out + [Symbol(Six(v, 64))];
      }
    }
  }

  lemma EncodeStep(out: string, data: seq<Byte>, i: nat)
    requires i + 3 <= |data| && out + Encode(data[i..]) == Encode(data)
    ensures var v := Word(data[i], data[i + 1], data[i + 2]);
            out + [Symbol(Six(v, 262144))] + [Symbol(Six(v, 4096))] + [Symbol(Six(v, 64))] + [Symbol(Six(v, 1))]
            + Encode(data[i + 3..]) == Encode(data)
  {
    hide Six, Symbol, Word, Encode;
    EncodeGroup(data[i..]);
    assert data[i..][3..] == data[i + 3..];
    FourMore(out, Group(data[i], data[i + 1], data[i + 2]), Encode(data[i + 3..]));
  }

  lemma FourMore(out: string, g: string, rest: string)
    requires |g| == 4
    ensures out + [g[0]] + [g[1]] + [g[2]] + [g[3]] + rest == out + (g + rest)
  {
  }

  lemma EncodeGroup(data: seq<Byte>)
    requires |data| >= 3
    ensures Encode(data) == Group(data[0], data[1], data[2]) + Encode(data[3..])
  {
    hide Six, Symbol, Word, Group;
  }

  lemma EncodeTail(data: seq<Byte>)
    requires |data| < 3
    ensures |data| == 0 ==> Encode(data) == []
    ensures |data| == 1 ==> var v := Word(data[0], 0, 0);
                            Encode(data) == [Symbol(Six(v, 262144)), Symbol(Six(v, 4096))]
    ensures |data| == 2 ==> var v := Word(data[0], data[1], 0);
                            Encode(data) == [Symbol(Six(v, 262144)), Symbol(Six(v, 4096)), Symbol(Six(v, 64))]
  {
    hide Six, Symbol, Word, Group;
  }

  // ---- decoding ----

  /** Appends six bits to the accumulator, which wraps at 32 bits. */
  function Push(acc: nat, v: Sextet): nat { (acc * 64 + v) % 0x1_0000_0000 }

  /** How many bits wait for more: none, two, four or six. */
  predicate Pending(bits: int) { 0 <= bits <= 6 && bits % 2 == 0 }

  /** A number shifted right by `bits`, and the bits that fall off. */
  function Above(n: nat, bits: nat): nat
    requires Pending(bits)
  {
    if bits == 0 then n else if bits == 2 then n / 4 else if bits == 4 then n / 16 else n / 64
  }

  function Below(n: nat, bits: nat): nat
    requires Pending(bits)
  {
    if bits == 0 then 0 else if bits == 2 then n % 4 else if bits == 4 then n % 16 else n % 64
  }

  /** The bits that are pending leave a byte once there are eight; the accumulator itself is never cleared. */
  function DecodeFrom(s: string, acc: nat, bits: nat): Option<seq<Byte>>
    requires Pending(bits)
    decreases |s|
  {
    if s == [] then Some([])
    else if ValueOf(s[0]) < 0 then None
    else
      var acc' := Push(acc, ValueOf(s[0]));
      if bits + 6 < 8 then DecodeFrom(s[1..], acc', bits + 6)
      else
        var rest := DecodeFrom(s[1..], acc', bits - 2);
        if rest.None? then None else Some([Above(acc', bits - 2) % 256] + rest.value)
  }

  function Decode(s: string): Option<seq<Byte>> { DecodeFrom(s, 0, 0) }

  method DecodeString(s: string) returns (ok: bool, out: seq<Byte>)
    ensures Decode(s) == if ok then Some(out) else None
  {
    out := [];
    var acc: nat, bits: nat := 0, 0;
    assert s[0..] == s;
    var i := 0;
    PrependNothing(DecodeFrom(s, 0, 0));
    while i < |s|
      invariant 0 <= i <= |s| && Pending(bits)
      invariant Decode(s) == Prepend(out, DecodeFrom(s[i..], acc, bits))
    {
      var v := ValueOf(s[i]);
      assert s[i..][1..] == s[i + 1..];
      if v < 0 {
        return false, out;
      }
      acc := Push(acc, v);
      bits := bits + 6;
      if bits >= 8 {
        bits := bits - 8;
        PrependOne(out, Above(acc, bits) % 256, DecodeFrom(s[i + 1..], acc, bits));
        out := out + [Above(acc, bits) % 256];
      }
      i := i + 1;
    }
    assert s[i..] == [] && out + [] == out;
    return true, out;
  }

  function Prepend(out: seq<Byte>, rest: Option<seq<Byte>>): Option<seq<Byte>> {
    if rest.None? then None else Some(out + rest.value)
  }

  lemma PrependNothing(rest: Option<seq<Byte>>)
    ensures Prepend([], rest) == rest
  {
    if rest.Some? {
      assert [] + rest.value == rest.value;
    }
  }

  lemma PrependOne(out: seq<Byte>, b: Byte, rest: Option<seq<Byte>>)
    ensures Prepend(out + [b], rest) == if rest.None? then None else Some(out + ([b] + rest.value))
  {
    if rest.Some? {
      assert out + [b] + rest.value == out + ([b] + rest.value);
    }
  }

  // ---- the accumulator that wraps and the pending bits alone ----

  /** The same with the pending bits only: `low` is a number of `bits` bits. */
  function DecodeLow(s: string, low: nat, bits: nat): Option<seq<Byte>>
    requires Pending(bits)
    decreases |s|
  {
    if s == [] then Some([])
    else if ValueOf(s[0]) < 0 then None
    else
      var w := low * 64 + ValueOf(s[0]);
      if bits == 0 then DecodeLow(s[1..], w, 6)
      else
        var rest := DecodeLow(s[1..], Below(w, bits - 2), bits - 2);
        if rest.None? then None else Some([Above(w, bits - 2) % 256] + rest.value)
  }

  lemma Wrapped(acc: nat, v: Sextet) returns (k: nat)
    ensures Push(acc, v) == acc * 64 + v - 0x1_0000_0000 * k
  {
    k := (acc * 64 + v) / 0x1_0000_0000;
  }

  lemma Rem64(q: int, r: int)
    requires 0 <= r < 64
    ensures (64 * q + r) % 64 == r
  {
  }

  lemma Rem256(q: int, r: int)
    requires 0 <= r < 256
    ensures (256 * q + r) % 256 == r
  {
  }

  lemma Rem1024(q: int, r: int)
    requires 0 <= r < 1024
    ensures (1024 * q + r) % 1024 == r
  {
  }

  lemma Rem4096(q: int, r: int)
    requires 0 <= r < 4096
    ensures (4096 * q + r) % 4096 == r
  {
  }

  /** A push leaves the pending bits and the new six at the bottom, wrapped or not. */
  lemma PushKeepsLow(acc: nat, v: Sextet)
    ensures Push(acc, v) % 64 == v
    ensures Push(acc, v) % 256 == acc % 4 * 64 + v
    ensures Push(acc, v) % 1024 == acc % 16 * 64 + v
    ensures Push(acc, v) % 4096 == acc % 64 * 64 + v
  {
    hide Push;
    var k := Wrapped(acc, v);
    Rem64(acc - 67108864 * k, v);
    Rem256(acc / 4 - 16777216 * k, acc % 4 * 64 + v);
    Rem1024(acc / 16 - 4194304 * k, acc % 16 * 64 + v);
    Rem4096(acc / 64 - 1048576 * k, acc % 64 * 64 + v);
  }

  lemma Take4(acc: nat)
    ensures acc / 4 % 256 == acc % 1024 / 4 % 256 && acc % 4 == acc % 1024 % 4
  {
    var q, w := acc / 1024, acc % 1024;
    assert acc == 1024 * q + w;
    Rem256(q, w / 4);
    assert acc / 4 == 256 * q + w / 4;
  }

  lemma Take6(acc: nat)
    ensures acc / 16 % 256 == acc % 4096 / 16 % 256 && acc % 16 == acc % 4096 % 16
  {
    var q, w := acc / 4096, acc % 4096;
    assert acc == 4096 * q + w;
    Rem256(q, w / 16);
    assert acc / 16 == 256 * q + w / 16;
  }

  /** The byte that leaves, and the bits that stay, depend on the pending bits only. */
  lemma TakeByte(acc: nat, v: Sextet, bits: nat)
    requires Pending(bits) && bits >= 2
    ensures var acc', w := Push(acc, v), Below(acc, bits) * 64 + v;
            Above(acc', bits - 2) % 256 == Above(w, bits - 2) % 256 && Below(acc', bits - 2) == Below(w, bits - 2)
  {
    hide Push;
    PushKeepsLow(acc, v);
    if bits == 2 {
      assert Push(acc, v) % 256 == acc % 4 * 64 + v;
    } else if bits == 4 {
      Take4(Push(acc, v));
    } else if bits == 6 {
      Take6(Push(acc, v));
    }
  }

  lemma FirstSix(acc: nat, v: Sextet)
    ensures Below(Push(acc, v), 6) == v && Below(acc, 0) * 64 + v == v
  {
    hide Push;
    PushKeepsLow(acc, v);
  }

  /** Wrapping at 32 bits does no harm: the decoder behaves as if it kept the pending bits alone. */
  lemma {:induction false} WrappingIsHarmless(s: string, acc: nat, bits: nat)
    requires Pending(bits)
    ensures DecodeFrom(s, acc, bits) == DecodeLow(s, Below(acc, bits), bits)
    decreases |s|
  {
    hide Push, Above, Below;
    if s != [] && ValueOf(s[0]) >= 0 {
      var v := ValueOf(s[0]);
      if bits == 0 {
        FirstSix(acc, v);
        WrappingIsHarmless(s[1..], Push(acc, v), 6);
      } else {
        TakeByte(acc, v, bits);
        WrappingIsHarmless(s[1..], Push(acc, v), bits - 2);
      }
    }
  }

  // ---- what goes in comes out ----

  lemma First(a: Byte, b: Byte, c: Byte)
    ensures Word(a, b, c) / 262144 == a / 4
  {
    assert Word(a, b, c) == 262144 * (a / 4) + (a % 4 * 65536 + b * 256 + c);
  }

  lemma Second(a: Byte, b: Byte, c: Byte)
    ensures Word(a, b, c) / 4096 == 64 * (a / 4) + (a % 4 * 16 + b / 16)
  {
    assert Word(a, b, c) == 4096 * (a * 16 + b / 16) + (b % 16 * 256 + c);
  }

  lemma Third(a: Byte, b: Byte, c: Byte)
    ensures Word(a, b, c) / 64 == 64 * (a * 16 + b / 16) + (b % 16 * 4 + c / 64)
  {
    assert Word(a, b, c) == 64 * (a * 1024 + b * 4 + c / 64) + c % 64;
  }

  /** Three bytes, cut into four times six bits. */
  lemma Sextets(a: Byte, b: Byte, c: Byte)
    ensures Six(Word(a, b, c), 262144) == a / 4
    ensures Six(Word(a, b, c), 4096) == a % 4 * 16 + b / 16
    ensures Six(Word(a, b, c), 64) == b % 16 * 4 + c / 64
    ensures Six(Word(a, b, c), 1) == c % 64
  {
    First(a, b, c);
    Second(a, b, c);
    Third(a, b, c);
    Rem64(a / 4, a % 4 * 16 + b / 16);
    Rem64(a * 16 + b / 16, b % 16 * 4 + c / 64);
    Rem64(a * 1024 + b * 4 + c / 64, c % 64);
    assert Word(a, b, c) == 64 * (a * 1024 + b * 4 + c / 64) + c % 64;
  }

  lemma LowStep(x: Sextet, t: string, low: nat, bits: nat)
    requires Pending(bits)
    ensures DecodeLow([Symbol(x)] + t, low, bits)
            == var w := low * 64 + x;
               if bits == 0 then DecodeLow(t, w, 6)
               else Prepend([Above(w, bits - 2) % 256], DecodeLow(t, Below(w, bits - 2), bits - 2))
  {
    hide Symbol, ValueOf, Above, Below;
    SymbolValue(x);
    assert ([Symbol(x)] + t)[1..] == t;
  }

  lemma DecodeTwo(a: Byte, x: nat, t: string)
    requires x < 16
    ensures DecodeLow([Symbol(a / 4)] + ([Symbol(a % 4 * 16 + x)] + t), 0, 0) == Prepend([a], DecodeLow(t, x, 4))
  {
    hide Symbol, ValueOf, DecodeLow;
    var u := [Symbol(a % 4 * 16 + x)] + t;
    LowStep(a / 4, u, 0, 0);
    LowStep(a % 4 * 16 + x, t, a / 4, 6);
  }

  lemma DecodeThird(b: Byte, x: nat, t: string)
    requires x < 4
    ensures DecodeLow([Symbol(b % 16 * 4 + x)] + t, b / 16, 4) == Prepend([b], DecodeLow(t, x, 2))
  {
    hide Symbol, ValueOf, DecodeLow;
    LowStep(b % 16 * 4 + x, t, b / 16, 4);
  }

  lemma DecodeFourth(c: Byte, t: string)
    ensures DecodeLow([Symbol(c % 64)] + t, c / 64, 2) == Prepend([c], DecodeLow(t, 0, 0))
  {
    hide Symbol, ValueOf, DecodeLow;
    LowStep(c % 64, t, c / 64, 2);
  }

  /** Four symbols give back their three bytes, whatever follows. */
  lemma DecodeGroup(a: Byte, b: Byte, c: Byte, t: string)
    ensures DecodeLow(Group(a, b, c) + t, 0, 0) == Prepend([a, b, c], DecodeLow(t, 0, 0))
  {
    hide Symbol, ValueOf, DecodeLow, Six, Word;
    Sextets(a, b, c);
    var t3 := [Symbol(c % 64)] + t;
    var t2 := [Symbol(b % 16 * 4 + c / 64)] + t3;
    assert Group(a, b, c) + t == [Symbol(a / 4)] + ([Symbol(a % 4 * 16 + b / 16)] + t2);
    DecodeTwo(a, b / 16, t2);
    DecodeThird(b, c / 64, t3);
    DecodeFourth(c, t);
    PrependThree(a, b, c, DecodeLow(t, 0, 0));
  }

  lemma PrependThree(a: Byte, b: Byte, c: Byte, rest: Option<seq<Byte>>)
    ensures Prepend([a], Prepend([b], Prepend([c], rest))) == Prepend([a, b, c], rest)
  {
    if rest.Some? {
      assert [a] + ([b] + ([c] + rest.value)) == [a, b, c] + rest.value;
    }
  }

  lemma DecodeTail(data: seq<Byte>)
    requires |data| < 3
    ensures DecodeLow(Encode(data), 0, 0) == Some(data)
  {
    hide Symbol, ValueOf, Six, Word, DecodeLow, Encode;
    EncodeTail(data);
    DecodeNothing();
    if |data| == 1 {
      Sextets(data[0], 0, 0);
      DecodeTwo(data[0], 0, []);
      assert [Symbol(data[0] / 4)] + ([Symbol(data[0] % 4 * 16 + 0)] + []) == Encode(data);
      assert [data[0]] + [] == data;
    } else if |data| == 2 {
      var a, b := data[0], data[1];
      Sextets(a, b, 0);
      var t := [Symbol(b % 16 * 4 + 0)] + [];
      DecodeTwo(a, b / 16, t);
      DecodeThird(b, 0, []);
      assert [Symbol(a / 4)] + ([Symbol(a % 4 * 16 + b / 16)] + t) == Encode(data);
      assert [a] + ([b] + []) == data;
    }
  }

  lemma DecodeNothing()
    ensures forall low: nat, bits: nat :: Pending(bits) ==> DecodeLow([], low, bits) == Some([])
  {
  }

  lemma {:induction false} LowRoundTrip(data: seq<Byte>)
    ensures DecodeLow(Encode(data), 0, 0) == Some(data)
    decreases |data|
  {
    hide Group, Six, DecodeLow, Encode;
    if |data| < 3 {
      DecodeTail(data);
    } else {
      LowRoundTrip(data[3..]);
      EncodeGroup(data);
      DecodeGroup(data[0], data[1], data[2], Encode(data[3..]));
      assert [data[0], data[1], data[2]] + data[3..] == data;
    }
  }

  /** Decoding an encoded byte string gives it back, although the accumulator wraps. */
  lemma RoundTrip(data: seq<Byte>)
    ensures Decode(Encode(data)) == Some(data)
  {
    LowRoundTrip(data);
    WrappingIsHarmless(Encode(data), 0, 0);
  }

  // ---- shape ----

  /** The encoding has four symbols for three bytes, rounded up, all from the alphabet: no padding. */
  lemma {:induction false} EncodeShape(data: seq<Byte>)
    ensures |Encode(data)| == (4 * |data| + 2) / 3 && InAlphabet(Encode(data))
    decreases |data|
  {
    hide Symbol, ValueOf, Six, Word;
    forall v: Sextet
      ensures ValueOf(Symbol(v)) == v
    {
      SymbolValue(v);
    }
    if |data| >= 3 {
      EncodeShape(data[3..]);
    }
  }

  lemma {:induction false} LowSucceeds(s: string, low: nat, bits: nat)
    requires Pending(bits)
    ensures DecodeLow(s, low, bits).Some? <==> InAlphabet(s)
    ensures DecodeLow(s, low, bits).Some? ==> |DecodeLow(s, low, bits).value| == (bits + 6 * |s|) / 8
    decreases |s|
  {
    hide ValueOf, Above, Below;
    if s != [] {
      assert InAlphabet(s) <==> ValueOf(s[0]) >= 0 && InAlphabet(s[1..]) by {
        assert s == [s[0]] + s[1..];
      }
      if ValueOf(s[0]) >= 0 {
        var w := low * 64 + ValueOf(s[0]);
        if bits == 0 {
          LowSucceeds(s[1..], w, 6);
        } else {
          LowSucceeds(s[1..], Below(w, bits - 2), bits - 2);
        }
      }
    }
  }

  /** Exactly the strings over the alphabet decode, to as many whole bytes as their bits make. */
  lemma DecodeSucceeds(s: string)
    ensures Decode(s).Some? <==> InAlphabet(s)
    ensures Decode(s).Some? ==> |Decode(s).value| == 6 * |s| / 8
  {
    WrappingIsHarmless(s, 0, 0);
    LowSucceeds(s, 0, 0);
  }

  // ---- what comes out need not go back in ----

  /** No symbol is left alone at the end, and the bits that make no whole byte are zero. */
  predicate Canonical(s: string) {
    && |s| % 4 != 1
    && (|s| % 4 == 2 ==> ValueOf(s[|s| - 1]) % 16 == 0)
    && (|s| % 4 == 3 ==> ValueOf(s[|s| - 1]) % 4 == 0)
  }

  /** Four times six bits, put together to three bytes and cut again. */
  lemma Regroup(x: Sextet, y: Sextet, z: Sextet, w: Sextet)
    ensures (x * 4 + y / 16) / 4 == x && (x * 4 + y / 16) % 4 == y / 16
    ensures (y % 16 * 16 + z / 4) / 16 == y % 16 && (y % 16 * 16 + z / 4) % 16 == z / 4
    ensures (z % 4 * 64 + w) / 64 == z % 4 && (z % 4 * 64 + w) % 64 == w
  {
    Rem64(z % 4, w);
  }

  /** Any four symbols are the group of some three bytes. */
  lemma SomeGroup(s: string) returns (a: Byte, b: Byte, c: Byte)
    requires |s| == 4 && InAlphabet(s)
    ensures Group(a, b, c) == s
  {
    hide Symbol, ValueOf, Six, Word;
    var x, y, z, w := ValueOf(s[0]), ValueOf(s[1]), ValueOf(s[2]), ValueOf(s[3]);
    a, b, c := x * 4 + y / 16, y % 16 * 16 + z / 4, z % 4 * 64 + w;
    Regroup(x, y, z, w);
    Sextets(a, b, c);
    AsSymbols(s);
    assert y / 16 * 16 + y % 16 == y && z / 4 * 4 + z % 4 == z;
  }

  lemma AsSymbols(s: string)
    requires InAlphabet(s)
    ensures forall i :: 0 <= i < |s| ==> Symbol(ValueOf(s[i])) == s[i]
  {
    forall i | 0 <= i < |s|
      ensures Symbol(ValueOf(s[i])) == s[i]
    {
      ValueSymbol(s[i]);
    }
  }

  lemma TwoLeft(s: string)
    requires |s| == 2 && InAlphabet(s)
    ensures DecodeLow(s, 0, 0).Some? && (Encode(DecodeLow(s, 0, 0).value) == s <==> ValueOf(s[1]) % 16 == 0)
  {
    hide Symbol, ValueOf, Six, Word, DecodeLow, Encode;
    var x, y := ValueOf(s[0]), ValueOf(s[1]);
    var a: Byte := x * 4 + y / 16;
    ValueSymbol(s[0]);
    ValueSymbol(s[1]);
    DecodeNothing();
    DecodeTwo(a, y % 16, []);
    assert [Symbol(a / 4)] + ([Symbol(a % 4 * 16 + y % 16)] + []) == s;
    assert [a] + [] == [a];
    EncodeTail([a]);
    Sextets(a, 0, 0);
    SymbolValue(a % 4 * 16);
  }

  lemma ThreeLeft(s: string)
    requires |s| == 3 && InAlphabet(s)
    ensures DecodeLow(s, 0, 0).Some? && (Encode(DecodeLow(s, 0, 0).value) == s <==> ValueOf(s[2]) % 4 == 0)
  {
    hide Symbol, ValueOf, Six, Word, DecodeLow, Encode;
    var x, y, z := ValueOf(s[0]), ValueOf(s[1]), ValueOf(s[2]);
    var a: Byte, b: Byte := x * 4 + y / 16, y % 16 * 16 + z / 4;
    ValueSymbol(s[0]);
    ValueSymbol(s[1]);
    ValueSymbol(s[2]);
    DecodeNothing();
    var t := [Symbol(b % 16 * 4 + z % 4)] + [];
    DecodeTwo(a, b / 16, t);
    DecodeThird(b, z % 4, []);
    assert [Symbol(a / 4)] + ([Symbol(a % 4 * 16 + b / 16)] + t) == s;
    assert [a] + ([b] + []) == [a, b];
    EncodeTail([a, b]);
    Sextets(a, b, 0);
    SymbolValue(b % 16 * 4);
  }

  lemma OneLeft(s: string)
    requires |s| == 1 && InAlphabet(s)
    ensures DecodeLow(s, 0, 0) == Some([]) && Encode([]) != s
  {
    DecodeNothing();
  }

  lemma {:induction false} LowCanonical(s: string)
    requires InAlphabet(s)
    ensures DecodeLow(s, 0, 0).Some? && (Encode(DecodeLow(s, 0, 0).value) == s <==> Canonical(s))
    decreases |s|
  {
    hide Symbol, ValueOf, Group, DecodeLow, Encode;
    if |s| == 0 {
      DecodeNothing();
      EncodeTail([]);
    } else if |s| == 1 {
      OneLeft(s);
    } else if |s| == 2 {
      TwoLeft(s);
    } else if |s| == 3 {
      ThreeLeft(s);
    } else {
      var rest := s[4..];
      LowCanonical(rest);
      var a, b, c := SomeGroup(s[..4]);
      assert s == Group(a, b, c) + rest;
      DecodeGroup(a, b, c, rest);
      var out := DecodeLow(rest, 0, 0).value;
      EncodeGroup([a, b, c] + out);
      assert ([a, b, c] + out)[3..] == out;
      assert Group(a, b, c) + Encode(out) == Group(a, b, c) + rest ==> Encode(out) == rest by {
        SameTail(Group(a, b, c), Encode(out), rest);
      }
    }
  }

  lemma SameTail(g: string, x: string, y: string)
    ensures g + x == g + y ==> x == y
  {
    assert (g + x)[|g|..] == x && (g + y)[|g|..] == y;
  }

  /** A string that decodes is the encoding of what it decodes to exactly when it is canonical; the decoder
      also takes a lone last symbol, and stray bits (which section 3.5 of RFC 4648 leaves to it). */
  lemma DecodeThenEncode(s: string)
    requires InAlphabet(s)
    ensures Decode(s).Some? && (Encode(Decode(s).value) == s <==> Canonical(s))
  {
    WrappingIsHarmless(s, 0, 0);
    LowCanonical(s);
  }

  /** A lone symbol decodes to nothing, and stray bits are dropped: neither string is an encoding. */
  lemma NotEveryStringIsAnEncoding()
    ensures Decode("A") == Some([]) && Encode([]) != "A"
    ensures Decode("QR") == Some([65]) && Encode([65]) == "QQ"
  {
    WrappingIsHarmless("A", 0, 0);
    OneLeft("A");
    WrappingIsHarmless("QR", 0, 0);
    StrayBits();
    EncodeTail([65]);
    Sextets(65, 0, 0);
  }

  lemma StrayBits()
    ensures DecodeLow("QR", 0, 0) == Some([65])
  {
    hide DecodeLow;
    DecodeNothing();
    DecodeTwo(65, 1, []);
    assert [Symbol(65 / 4)] + ([Symbol(65 % 4 * 16 + 1)] + []) == "QR";
    assert [65] + [] == [65];
  }
}
