/** The text form of a version vector: a printer and a tolerant parser. */
module VectorJson {
  import opened VersionVectors

  // ---- printing ----

  function Digit(n: nat): char
    requires n < 10
  {
    '0' + n as char
  }

  function Digits(n: nat): string {
    if n < 10 then [Digit(n)] else Digits(n / 10) + [Digit(n % 10)]
  }

  function Decimal(n: int): string { if n < 0 then "-" + Digits(-n) else Digits(n) }

  function Member(d: string, n: int): string { "\"" + d + "\":" + Decimal(n) }

  function Items(v: Vector, keys: seq<string>, first: bool): string
    requires forall d <- keys :: d in v
    decreases |keys|
  {
    if keys == [] then []
    else (if first then [] else ",") + Member(keys[0], v[keys[0]]) + Items(v, keys[1..], false)
  }

  /** The entries in the order the map holds them. */
  ghost predicate Enumerates(v: Vector, keys: seq<string>) {
    && (forall d <- keys :: d in v)
    && (forall d <- v :: d in keys)
    && (forall i, j :: 0 <= i < j < |keys| ==> keys[i] != keys[j])
  }

  function ToJson(v: Vector, keys: seq<string>): string
    requires forall d <- keys :: d in v
  {
    "{" + Items(v, keys, true) + "}"
  }

  method Print(v: Vector, keys: seq<string>) returns (json: string)
    requires Enumerates(v, keys)
    ensures json == ToJson(v, keys)
  {
    hide Member;
    json := "{";
    var first := true;
    var i := 0;
    assert keys[0..] == keys;
    while i < |keys|
      invariant 0 <= i <= |keys| && (first <==> i == 0)
      invariant "{" + Items(v, keys, true) == json + Items(v, keys[i..], first)
    {
      assert keys[i..][1..] == keys[i + 1..];
      ghost var before := json;
      if !first {
        json := json + ",";
      }
      Regroup(before, if first then [] else ",", Member(keys[i], v[keys[i]]), Items(v, keys[i + 1..], false));
      first := false;
      json := json + Member(keys[i], v[keys[i]]);
      i := i + 1;
    }
    json := json + "}";
  }

  lemma Regroup(a: string, b: string, c: string, d: string)
    ensures a + (b + c + d) == a + b + c + d
    ensures b == [] ==> a + (b + c + d) == a + c + d
  {
  }

  // ---- parsing ----

  predicate IsSpace(c: char) { c == ' ' || '\t' <= c <= '\r' }

  predicate IsDigit(c: char) { '0' <= c <= '9' }

  function Trim(s: string): (r: string)
    ensures |r| <= |s|
    decreases |s|
  {
    if s != [] && IsSpace(s[0]) then Trim(s[1..]) else s
  }

  function Skip(s: string, c: char): (r: string)
    ensures |r| <= |s|
  {
    if s != [] && s[0] == c then s[1..] else s
  }

  /** The text before the next quote, and what follows that quote. */
  function UntilQuote(s: string): string
    decreases |s|
  {
    if s == [] || s[0] == '"' then [] else [s[0]] + UntilQuote(s[1..])
  }

  function AfterQuote(s: string): (r: string)
    ensures |r| <= |s|
    decreases |s|
  {
    if s == [] then [] else if s[0] == '"' then s[1..] else AfterQuote(s[1..])
  }

  /** A run of digits: its value, whether there was any, whether every step fits 64 bits, and what follows. */
  datatype Number = Number(value: int, any: bool, fits: bool, rest: string)

  function TakeNumber(s: string, value: int, any: bool, fits: bool): (n: Number)
    ensures |n.rest| <= |s|
    decreases |s|
  {
    if s == [] || !IsDigit(s[0]) then Number(value, any, fits, s)
    else
      var next := value * 10 + (s[0] - '0') as int;
      TakeNumber(s[1..], next, true, fits && next <= MAX_INT64)
  }

  /** The entries read, and whether no number overflowed on the way. */
  datatype Parsed = Parsed(entries: Vector, fits: bool)

  function ParseMembers(s: string, acc: Vector, fits: bool): Parsed
    decreases |s|
  {
    var t := Trim(s);
    if t == [] || t[0] != '"' then Parsed(acc, fits)
    else
      var u := Trim(Skip(Trim(AfterQuote(t[1..])), ':'));
      var n := TakeNumber(Skip(u, '-'), 0, false, fits);
      var negative := u != [] && u[0] == '-';
      ParseMembers(Skip(Trim(n.rest), ','),
                   if n.any && !negative then acc[UntilQuote(t[1..]) := n.value] else acc, n.fits)
  }

  function FromJson(json: string): Parsed {
    var t := Trim(json);
    if t == [] || t[0] != '{' then Parsed(map[], true) else ParseMembers(t[1..], map[], true)
  }

  method SkipSpace(json: string, start: nat) returns (i: nat)
    requires start <= |json|
    ensures start <= i <= |json| && json[i..] == Trim(json[start..])
  {
    i := start;
    while i < |json| && IsSpace(json[i])
      invariant start <= i <= |json| && Trim(json[i..]) == Trim(json[start..])
    {
      assert json[i..][1..] == json[i + 1..];
      i := i + 1;
    }
  }

  method ReadKey(json: string, start: nat) returns (key: string, i: nat)
    requires start <= |json|
    ensures start <= i <= |json| && key == UntilQuote(json[start..]) && json[i..] == AfterQuote(json[start..])
  {
    i := start;
    key := [];
    while i < |json| && json[i] != '"'
      invariant start <= i <= |json|
      invariant key + UntilQuote(json[i..]) == UntilQuote(json[start..])
      invariant AfterQuote(json[i..]) == AfterQuote(json[start..])
    {
      assert json[i..][1..] == json[i + 1..];
      assert key + ([json[i]] + UntilQuote(json[i + 1..])) == key + [json[i]] + UntilQuote(json[i + 1..]);
      key := key + [json[i]];
      i := i + 1;
    }
    assert key + [] == key;
    if i < |json| {
      assert json[i..][1..] == json[i + 1..];
      i := i + 1;
    }
  }

  method ReadNumber(json: string, start: nat, fitsSoFar: bool) returns (value: int, any: bool, fits: bool, i: nat)
    requires start <= |json|
    ensures start <= i <= |json|
    ensures Number(value, any, fits, json[i..]) == TakeNumber(json[start..], 0, false, fitsSoFar)
  {
    i, value, any, fits := start, 0, false, fitsSoFar;
    while i < |json| && IsDigit(json[i])
      invariant start <= i <= |json|
      invariant TakeNumber(json[i..], value, any, fits) == TakeNumber(json[start..], 0, false, fitsSoFar)
    {
      assert json[i..][1..] == json[i + 1..];
      value := value * 10 + (json[i] - '0') as int;
      any := true;
      fits := fits && value <= MAX_INT64;
      i := i + 1;
    }
  }

  /** Steps over `c` if it comes next. */
  method SkipChar(json: string, start: nat, c: char) returns (i: nat)
    requires start <= |json|
    ensures start <= i <= |json| && json[i..] == Skip(json[start..], c)
    ensures i == start || (i == start + 1 && json[start] == c)
  {
    i := start;
    if i < |json| && json[i] == c {
      assert json[start..][1..] == json[start + 1..];
      i := i + 1;
    }
  }

  method Parse(json: string) returns (entries: Vector, fits: bool)
    ensures Parsed(entries, fits) == FromJson(json)
  {
    hide Trim, UntilQuote, AfterQuote, TakeNumber, Skip;
    entries, fits := map[], true;
    assert json[0..] == json;
    var i := SkipSpace(json, 0);
    if i >= |json| || json[i] != '{' {
      return;
    }
    i := i + 1;
    assert json[i - 1..][1..] == json[i..];
    while i < |json|
      invariant i <= |json|
      invariant FromJson(json) == ParseMembers(json[i..], entries, fits)
      decreases |json| - i
    {
      ghost var start := i;
      i := SkipSpace(json, i);
      if i >= |json| || json[i] != '"' {
        return;
      }
      ghost var quote := i;
      assert json[quote..][1..] == json[quote + 1..];
      var key: string;
      key, i := ReadKey(json, i + 1);
      i := SkipSpace(json, i);
      i := SkipChar(json, i, ':');
      i := SkipSpace(json, i);
      ghost var u := json[i..];
      var negative := i < |json| && json[i] == '-';
      i := SkipChar(json, i, '-');
      var value, any;
      value, any, fits, i := ReadNumber(json, i, fits);
      if any && !negative {
        entries := entries[key := value];
      }
      i := SkipSpace(json, i);
      i := SkipChar(json, i, ',');
    }
    EmptyMembers(entries, fits);
    assert json[i..] == [];
  }

  lemma EmptyMembers(acc: Vector, fits: bool)
    ensures ParseMembers([], acc, fits) == Parsed(acc, fits)
  {
  }

  // ---- reading back one number ----

  /** The digits of a number read back as that number; no step exceeds 64 bits unless the number does. */
  lemma {:induction false} DigitsReadBack(n: nat, tail: string, any: bool, fits: bool)
    ensures TakeNumber(Digits(n) + tail, 0, any, fits) == TakeNumber(tail, n, true, fits && n <= MAX_INT64)
    decreases n
  {
    if n < 10 {
      assert (Digits(n) + tail)[1..] == tail;
    } else {
      var last := [Digit(n % 10)] + tail;
      DigitsReadBack(n / 10, last, any, fits);
      assert Digits(n) + tail == Digits(n / 10) + last;
      assert last[1..] == tail;
      assert n / 10 * 10 + n % 10 == n;
    }
  }

  lemma {:induction false} DigitsStart(n: nat)
    ensures Digits(n) != [] && IsDigit(Digits(n)[0])
    decreases n
  {
    if n >= 10 {
      DigitsStart(n / 10);
    }
  }

  lemma Magnitude(n: int) returns (m: nat)
    ensures m == if n < 0 then -n else n
    ensures Decimal(n) == (if n < 0 then "-" else []) + Digits(m)
  {
    m := if n < 0 then -n else n;
    assert [] + Digits(m) == Digits(m);
  }

  // ---- reading back one member ----

  lemma {:induction false} KeyReadsBack(d: string, tail: string)
    requires '"' !in d
    ensures UntilQuote(d + "\"" + tail) == d && AfterQuote(d + "\"" + tail) == tail
    decreases |d|
  {
    var s := d + "\"" + tail;
    if d == [] {
      assert s == "\"" + tail && s[1..] == tail;
    } else {
      KeyReadsBack(d[1..], tail);
      assert s[1..] == d[1..] + "\"" + tail;
      assert [d[0]] + d[1..] == d;
    }
  }

  predicate EndsMember(tail: string) { tail != [] && (tail[0] == ',' || tail[0] == '}') }

  predicate Fits(n: int) { -MAX_INT64 <= n <= MAX_INT64 }

  function Enter(acc: Vector, d: string, n: int): Vector { if n >= 0 then acc[d := n] else acc }

  /** What is read after a key: the number printed there, and what follows it. */
  lemma NumberReadsBack(n: int, tail: string, fits: bool)
    requires EndsMember(tail)
    ensures var u := Trim(Skip(Trim(":" + Decimal(n) + tail), ':'));
            && u == Decimal(n) + tail
            && (u[0] == '-' <==> n < 0)
            && TakeNumber(Skip(u, '-'), 0, false, fits)
               == Number(if n < 0 then -n else n, true, fits && Fits(n), tail)
  {
    var m := Magnitude(n);
    var s := ":" + Decimal(n) + tail;
    DigitsStart(m);
    assert s[1..] == Decimal(n) + tail;
    if n < 0 {
      assert (Decimal(n) + tail)[1..] == Digits(m) + tail;
    }
    DigitsReadBack(m, tail, false, fits);
  }

  lemma MemberReadsBack(d: string, n: int, tail: string, acc: Vector, fits: bool)
    requires '"' !in d && EndsMember(tail)
    ensures ParseMembers(Member(d, n) + tail, acc, fits)
            == ParseMembers(Skip(tail, ','), Enter(acc, d, n), fits && Fits(n))
  {
    hide TakeNumber, Decimal;
    var rest := ":" + Decimal(n) + tail;
    var s := Member(d, n) + tail;
    assert s == "\"" + (d + "\"" + rest);
    assert s[1..] == d + "\"" + rest;
    assert Trim(s) == s;
    KeyReadsBack(d, rest);
    NumberReadsBack(n, tail, fits);
    assert Trim(tail) == tail;
  }

  // ---- reading back all members ----

  /** The entries of the listed names, negative ones left out. */
  function Fill(acc: Vector, v: Vector, keys: seq<string>): Vector
    requires forall d <- keys :: d in v
    decreases |keys|
  {
    if keys == [] then acc else Fill(Enter(acc, keys[0], v[keys[0]]), v, keys[1..])
  }

  lemma {:induction false} ItemsReadBack(v: Vector, keys: seq<string>, acc: Vector, fits: bool)
    requires forall d <- keys :: d in v && '"' !in d
    ensures ParseMembers(Items(v, keys, true) + "}", acc, fits)
            == Parsed(Fill(acc, v, keys), fits && forall d <- keys :: Fits(v[d]))
    decreases |keys|
  {
    hide Member, Enter, Fits;
    if keys == [] {
      assert Items(v, keys, true) + "}" == "}";
      EndOfMembers(acc, fits);
    } else {
      var d, rest := keys[0], keys[1..];
      var tail := Items(v, rest, false) + "}";
      assert Items(v, keys, true) + "}" == Member(d, v[d]) + tail;
      TailOfItems(v, rest);
      MemberReadsBack(d, v[d], tail, acc, fits);
      ItemsReadBack(v, rest, Enter(acc, d, v[d]), fits && Fits(v[d]));
      assert keys == [d] + rest;
    }
  }

  lemma EndOfMembers(acc: Vector, fits: bool)
    ensures ParseMembers("}", acc, fits) == Parsed(acc, fits)
  {
  }

  lemma CommaFirst(v: Vector, keys: seq<string>)
    requires keys != [] && forall d <- keys :: d in v
    ensures Items(v, keys, false) == "," + Items(v, keys, true)
  {
    hide Member;
    var m, rest := Member(keys[0], v[keys[0]]), Items(v, keys[1..], false);
    assert [] + m + rest == m + rest && "," + m + rest == "," + (m + rest);
  }

  lemma TailOfItems(v: Vector, keys: seq<string>)
    requires forall d <- keys :: d in v
    ensures EndsMember(Items(v, keys, false) + "}")
    ensures Skip(Items(v, keys, false) + "}", ',') == Items(v, keys, true) + "}"
  {
    hide Member, Items;
    if keys == [] {
      NoItems(v);
    } else {
      CommaFirst(v, keys);
      var x := Items(v, keys, true);
      assert "," + x + "}" == "," + (x + "}");
    }
  }

  lemma NoItems(v: Vector)
    ensures Items(v, [], true) == Items(v, [], false) == []
  {
  }

  function Kept(v: Vector): Vector { map d <- v | v[d] >= 0 :: v[d] }

  lemma {:induction false} FillMeans(acc: Vector, v: Vector, keys: seq<string>)
    requires forall d <- keys :: d in v
    ensures Fill(acc, v, keys).Keys == acc.Keys + set d <- keys | v[d] >= 0
    ensures forall d <- Fill(acc, v, keys) :: Fill(acc, v, keys)[d] == if d in keys && v[d] >= 0 then v[d] else acc[d]
    decreases |keys|
  {
    if keys != [] {
      FillMeans(Enter(acc, keys[0], v[keys[0]]), v, keys[1..]);
      assert keys == [keys[0]] + keys[1..];
    }
  }

  lemma OpenBrace(v: Vector, keys: seq<string>)
    requires forall d <- keys :: d in v
    ensures FromJson(ToJson(v, keys)) == ParseMembers(Items(v, keys, true) + "}", map[], true)
  {
    hide ParseMembers, Items;
    var json, x := ToJson(v, keys), Items(v, keys, true);
    assert json == "{" + (x + "}") && json[1..] == x + "}";
  }

  lemma FillAll(v: Vector, keys: seq<string>)
    requires Enumerates(v, keys)
    ensures Fill(map[], v, keys) == Kept(v)
  {
    hide Fill;
    FillMeans(map[], v, keys);
  }

  /** Reading a printed vector back gives its entries that are not negative, in whatever order they were
      printed; nothing overflows 64 bits that the vector itself keeps within. */
  lemma PrintedReadsBack(v: Vector, keys: seq<string>)
    requires Enumerates(v, keys) && forall d <- v :: '"' !in d
    ensures FromJson(ToJson(v, keys)) == Parsed(Kept(v), forall d <- v :: Fits(v[d]))
  {
    hide FromJson, ToJson, ParseMembers, Items, Fill, Fits, Kept;
    OpenBrace(v, keys);
    ItemsReadBack(v, keys, map[], true);
    FillAll(v, keys);
  }

  /** No name that is read contains a quote. */
  lemma {:induction false} ReadNamesHaveNoQuote(s: string, acc: Vector, fits: bool)
    requires forall d <- acc :: '"' !in d
    ensures forall d <- ParseMembers(s, acc, fits).entries :: '"' !in d
    decreases |s|
  {
    hide TakeNumber;
    var t := Trim(s);
    if t != [] && t[0] == '"' {
      var u := Trim(Skip(Trim(AfterQuote(t[1..])), ':'));
      var n := TakeNumber(Skip(u, '-'), 0, false, fits);
      var negative := u != [] && u[0] == '-';
      KeyHasNoQuote(t[1..]);
      var acc' := if n.any && !negative then acc[UntilQuote(t[1..]) := n.value] else acc;
      ReadNamesHaveNoQuote(Skip(Trim(n.rest), ','), acc', n.fits);
    }
  }

  lemma {:induction false} KeyHasNoQuote(s: string)
    ensures '"' !in UntilQuote(s)
    decreases |s|
  {
    if s != [] && s[0] != '"' {
      KeyHasNoQuote(s[1..]);
    }
  }

  lemma NothingDropped(v: Vector)
    ensures Kept(v) == v <==> NonNegative(v)
  {
    if !NonNegative(v) {
      var d :| d in v && v[d] < 0;
      assert d !in Kept(v);
    }
  }

  /** A vector survives printing and reading exactly when its names have no quotes and its counters are not
      negative; and then no number overflows on the way. */
  lemma JsonRoundTrip(v: Vector, keys: seq<string>)
    requires Enumerates(v, keys) && forall d <- v :: v[d] <= MAX_INT64
    ensures FromJson(ToJson(v, keys)).entries == v <==> (forall d <- v :: '"' !in d) && NonNegative(v)
    ensures FromJson(ToJson(v, keys)).entries == v ==> FromJson(ToJson(v, keys)).fits
  {
    hide FromJson, ToJson, ParseMembers, Items, Kept;
    NothingDropped(v);
    if forall d <- v :: '"' !in d {
      PrintedReadsBack(v, keys);
    } else {
      OpenBrace(v, keys);
      ReadNamesHaveNoQuote(Items(v, keys, true) + "}", map[], true);
    }
  }

  // ---- vectors that do not survive ----

  lemma QuotedText()
    ensures ToJson(map["a\"" := 5], ["a\""]) == "{\"a\"\":5}"
  {
    var v, keys := map["a\"" := 5], ["a\""];
    assert keys[1..] == [];
    assert Items(v, keys, true) == Member("a\"", 5) == "\"a\"\":5";
  }

  /** A name with no number after it enters nothing. */
  lemma NameAlone(key: string, rest: string, acc: Vector, fits: bool)
    requires '"' !in key && rest != [] && rest[0] == '"'
    ensures ParseMembers("\"" + (key + "\"" + rest), acc, fits) == ParseMembers(rest, acc, fits)
  {
    hide UntilQuote, AfterQuote;
    var s := "\"" + (key + "\"" + rest);
    assert s[1..] == key + "\"" + rest;
    KeyReadsBack(key, rest);
    assert Trim(rest) == rest && TakeNumber(rest, 0, false, fits) == Number(0, false, fits, rest);
  }

  /** A name without an end takes all that is left. */
  lemma NameToTheEnd(key: string, acc: Vector, fits: bool)
    requires '"' !in key
    ensures ParseMembers("\"" + key, acc, fits) == Parsed(acc, fits)
  {
    hide UntilQuote, AfterQuote;
    var s := "\"" + key;
    assert s[1..] == key;
    KeyWithoutEnd(key);
    EmptyMembers(acc, fits);
    var none: string := [];
    assert Trim(none) == none && TakeNumber(none, 0, false, fits) == Number(0, false, fits, none);
  }

  /** A quote in a name ends the name early: the counter is not found, and the entry is lost. */
  lemma QuotedNameIsLost()
    ensures Enumerates(map["a\"" := 5], ["a\""])
    ensures FromJson(ToJson(map["a\"" := 5], ["a\""])) == Parsed(map[], true)
  {
    hide ToJson, ParseMembers;
    QuotedText();
    var s := "{\"a\"\":5}";
    assert s[1..] == "\"" + ("a" + "\"" + "\":5}");
    NameAlone("a", "\":5}", map[], true);
    assert "\":5}" == "\"" + ":5}";
    NameToTheEnd(":5}", map[], true);
  }

  lemma {:induction false} KeyWithoutEnd(s: string)
    requires '"' !in s
    ensures UntilQuote(s) == s && AfterQuote(s) == []
    decreases |s|
  {
    if s != [] {
      KeyWithoutEnd(s[1..]);
      assert [s[0]] + s[1..] == s;
    }
  }

  /** A negative counter is read and dropped. */
  lemma NegativeCounterIsDropped()
    ensures Enumerates(map["a" := -1], ["a"]) && FromJson(ToJson(map["a" := -1], ["a"])) == Parsed(map[], true)
  {
    var v := map["a" := -1];
    PrintedReadsBack(v, ["a"]);
    assert Kept(v) == map[];
    assert forall d <- v :: Fits(v[d]);
  }

  // ---- the text form is JSON ----

  /** An integer of section 6 of RFC 8259: digits without a needless zero, after a minus if it is negative. */
  predicate JsonInt(s: string) {
    var digits := if s != [] && s[0] == '-' then s[1..] else s;
    && digits != [] && (forall i :: 0 <= i < |digits| ==> IsDigit(digits[i]))
    && (|digits| > 1 ==> digits[0] != '0')
  }

  /** Members with a comma between any two. */
  function Commas(members: seq<string>): string
    decreases |members|
  {
    if members == [] then [] else if |members| == 1 then members[0] else members[0] + "," + Commas(members[1..])
  }

  /** A quoted name, a colon, and an integer. */
  predicate JsonMember(m: string, name: string) {
    |m| >= |name| + 3 && m[..|name| + 3] == "\"" + name + "\":" && JsonInt(m[|name| + 3..])
  }

  lemma {:induction false} DigitsAreAnInt(n: nat)
    ensures Digits(n) != [] && forall i :: 0 <= i < |Digits(n)| ==> IsDigit(Digits(n)[i])
    ensures n > 0 ==> Digits(n)[0] != '0'
    ensures JsonInt(Digits(n))
    decreases n
  {
    if n >= 10 {
      DigitsAreAnInt(n / 10);
    } else {
      assert Digits(n) == [Digit(n)];
    }
  }

  lemma MemberIsJson(d: string, n: int)
    ensures JsonMember(Member(d, n), d)
  {
    DigitsAreAnInt(if n < 0 then -n else n);
    var quoted := "\"" + d + "\":";
    assert Member(d, n) == quoted + Decimal(n);
    if n < 0 {
      assert Decimal(n)[1..] == Digits(-n);
    }
    assert JsonInt(Decimal(n));
    assert Member(d, n)[|d| + 3..] == Decimal(n);
  }

  lemma {:induction false} ItemsAreCommas(v: Vector, keys: seq<string>) returns (members: seq<string>)
    requires forall d <- keys :: d in v
    ensures |members| == |keys| && Items(v, keys, true) == Commas(members)
    ensures keys != [] ==> Items(v, keys, false) == "," + Commas(members)
    ensures forall i :: 0 <= i < |keys| ==> JsonMember(members[i], keys[i])
    decreases |keys|
  {
    hide Member, JsonMember;
    if keys == [] {
      members := [];
    } else {
      var rest := ItemsAreCommas(v, keys[1..]);
      var m := Member(keys[0], v[keys[0]]);
      MemberIsJson(keys[0], v[keys[0]]);
      members := [m] + rest;
      assert members[1..] == rest;
      if keys[1..] == [] {
        assert [] + m + [] == m && "," + m + [] == "," + m;
      } else {
        assert [] + m + ("," + Commas(rest)) == m + "," + Commas(rest);
        assert "," + m + ("," + Commas(rest)) == "," + (m + "," + Commas(rest));
      }
    }
  }

  /** The text form is an object of the JSON grammar: one member for each entry, a name and an integer, with commas
      between them. */
  lemma PrintedIsJson(v: Vector, keys: seq<string>)
    requires Enumerates(v, keys)
    ensures exists members ::
              && |members| == |keys| && ToJson(v, keys) == "{" + Commas(members) + "}"
              && forall i :: 0 <= i < |keys| ==> JsonMember(members[i], keys[i])
  {
    hide Items, Commas, JsonMember;
    var members := ItemsAreCommas(v, keys);
  }

  // ---- space between the tokens ----

  /** White space of section 2 of RFC 8259. */
  predicate Blank(s: string) { forall c <- s :: c in {' ', '\t', '\n', '\r'} }

  /** The space before a member's name, colon and number, and after it. */
  datatype Gaps = Gaps(name: string, colon: string, number: string, end: string)

  predicate BlankGaps(g: Gaps) { Blank(g.name) && Blank(g.colon) && Blank(g.number) && Blank(g.end) }

  function SpacedMember(d: string, n: int, g: Gaps): string {
    g.name + ("\"" + (d + "\"" + (g.colon + (":" + (g.number + (Decimal(n) + g.end))))))
  }

  function SpacedItems(v: Vector, keys: seq<string>, gaps: seq<Gaps>): string
    requires |gaps| == |keys| && forall d <- keys :: d in v
    decreases |keys|
  {
    if keys == [] then []
    else
      SpacedMember(keys[0], v[keys[0]], gaps[0])
      + (if |keys| == 1 then [] else "," + SpacedItems(v, keys[1..], gaps[1..]))
  }

  lemma {:induction false} TrimBlank(w: string, s: string)
    requires Blank(w)
    ensures Trim(w + s) == Trim(s)
    decreases |w|
  {
    if w == [] {
      assert w + s == s;
    } else {
      assert w[0] in w;
      assert forall c <- w[1..] :: c in w;
      assert (w + s)[1..] == w[1..] + s && IsSpace(w[0]);
      TrimBlank(w[1..], s);
    }
  }

  lemma SpacedNumber(n: int, w: string, tail: string, fits: bool)
    requires Blank(w) && EndsMember(tail)
    ensures var u := Decimal(n) + (w + tail);
            && u != [] && !IsSpace(u[0]) && (u[0] == '-' <==> n < 0)
            && TakeNumber(Skip(u, '-'), 0, false, fits)
               == Number(if n < 0 then -n else n, true, fits && Fits(n), w + tail)
  {
    var m := Magnitude(n);
    DigitsStart(m);
    if n < 0 {
      assert (Decimal(n) + (w + tail))[1..] == Digits(m) + (w + tail);
    }
    assert w != [] ==> w[0] in w;
    DigitsReadBack(m, w + tail, false, fits);
  }

  lemma SpacedReadsBack(d: string, n: int, g: Gaps, tail: string, acc: Vector, fits: bool)
    requires '"' !in d && BlankGaps(g) && EndsMember(tail)
    ensures ParseMembers(SpacedMember(d, n, g) + tail, acc, fits)
            == ParseMembers(Skip(tail, ','), Enter(acc, d, n), fits && Fits(n))
  {
    hide TakeNumber, Decimal;
    var number := Decimal(n) + (g.end + tail);
    var colon := g.colon + (":" + (g.number + number));
    var name := "\"" + (d + "\"" + colon);
    SpacedApart(d, Decimal(n), g, tail);
    TrimBlank(g.name, name);
    assert Trim(name) == name && name[1..] == d + "\"" + colon;
    KeyReadsBack(d, colon);
    TrimBlank(g.colon, ":" + (g.number + number));
    assert (":" + (g.number + number))[1..] == g.number + number;
    TrimBlank(g.number, number);
    SpacedNumber(n, g.end, tail, fits);
    TrimBlank(g.end, tail);
    assert Trim(tail) == tail && Trim(number) == number;
  }

  lemma SpacedApart(d: string, number: string, g: Gaps, tail: string)
    ensures g.name + ("\"" + (d + "\"" + (g.colon + (":" + (g.number + (number + g.end)))))) + tail
            == g.name + ("\"" + (d + "\"" + (g.colon + (":" + (g.number + (number + (g.end + tail)))))))
  {
  }

  lemma SpacedFirst(v: Vector, keys: seq<string>, gaps: seq<Gaps>, end: string)
    requires |gaps| == |keys| && keys != [] && (forall d <- keys :: d in v) && end == []
    ensures var more := SpacedItems(v, keys[1..], gaps[1..]) + "}";
            SpacedItems(v, keys, gaps) + end + "}"
            == SpacedMember(keys[0], v[keys[0]], gaps[0]) + if |keys| == 1 then "}" else "," + more
  {
    hide SpacedMember;
    var first, rest := SpacedMember(keys[0], v[keys[0]], gaps[0]), SpacedItems(v, keys[1..], gaps[1..]);
    if |keys| > 1 {
      assert first + ("," + rest) + [] + "}" == first + ("," + (rest + "}"));
    }
  }

  lemma {:induction false} SpacedItemsReadBack(v: Vector, keys: seq<string>, gaps: seq<Gaps>, end: string, acc: Vector,
                                              fits: bool)
    requires |gaps| == |keys| && (forall d <- keys :: d in v && '"' !in d) && (forall g <- gaps :: BlankGaps(g))
    requires Blank(end) && (keys != [] ==> end == [])
    ensures ParseMembers(SpacedItems(v, keys, gaps) + end + "}", acc, fits)
            == Parsed(Fill(acc, v, keys), fits && forall d <- keys :: Fits(v[d]))
    decreases |keys|
  {
    hide SpacedMember, SpacedItems, Enter, Fits, TakeNumber, BlankGaps, ParseMembers;
    if keys == [] {
      NoSpacedItems(v);
      assert [] + end + "}" == end + "}";
      BlankEnd(end, acc, fits);
    } else {
      var d, g, n := keys[0], gaps[0], v[keys[0]];
      assert g in gaps && d in keys && forall g <- gaps[1..] :: g in gaps;
      var more := SpacedItems(v, keys[1..], gaps[1..]) + [] + "}";
      SpacedFirst(v, keys, gaps, end);
      SpacedReadsBack(d, n, g, if |keys| == 1 then "}" else "," + more, acc, fits);
      NoSpacedItems(v);
      assert |keys| == 1 ==> keys[1..] == [] && gaps[1..] == [] && more == "}";
      assert SpacedItems(v, keys[1..], gaps[1..]) + "}" == more && ("," + more)[1..] == more;
      SpacedItemsReadBack(v, keys[1..], gaps[1..], [], Enter(acc, d, n), fits && Fits(n));
      assert keys == [d] + keys[1..];
    }
  }

  lemma NoSpacedItems(v: Vector)
    ensures SpacedItems(v, [], []) == []
  {
  }

  lemma BlankEnd(end: string, acc: Vector, fits: bool)
    requires Blank(end)
    ensures ParseMembers(end + "}", acc, fits) == Parsed(acc, fits)
  {
    TrimBlank(end, "}");
    EndOfMembers(acc, fits);
  }

  /** White space before, between and after the tokens of an object makes no difference to what is read. */
  lemma SpaceIsIgnored(v: Vector, keys: seq<string>, gaps: seq<Gaps>, start: string, end: string)
    requires Enumerates(v, keys) && (forall d <- v :: '"' !in d)
    requires |gaps| == |keys| && (forall g <- gaps :: BlankGaps(g)) && Blank(start) && Blank(end)
    requires keys != [] ==> end == []
    ensures FromJson(start + ("{" + (SpacedItems(v, keys, gaps) + end + "}"))) == FromJson(ToJson(v, keys))
  {
    hide ParseMembers, Items, SpacedItems;
    var body := SpacedItems(v, keys, gaps) + end + "}";
    TrimBlank(start, "{" + body);
    assert Trim("{" + body) == "{" + body && ("{" + body)[1..] == body;
    SpacedItemsReadBack(v, keys, gaps, end, map[], true);
    ItemsReadBack(v, keys, map[], true);
    OpenBrace(v, keys);
  }
}
