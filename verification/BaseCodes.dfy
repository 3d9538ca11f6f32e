/** Base 32 and unpadded base 64 for URLs (sections 6 and 5 of RFC 4648), as Go's encoders
    write them and its decoders accept them, line breaks aside. */
module BaseCodes {
  import opened Common

  // Go's decoders drop line breaks first.
  function StripNewlines(s: string): string {
    if s == "" then ""
    else (if s[0] == '\r' || s[0] == '\n' then "" else [s[0]]) + StripNewlines(s[1..])
  }

  lemma {:induction false} StripNothing(s: string)
    requires '\r' !in s && '\n' !in s
    ensures StripNewlines(s) == s
  {
    if s != "" {
      StripNothing(s[1..]);
    }
  }

  // The values of all characters, or None if one is not in the alphabet.
  function Values(s: string, value: char -> Option<nat>): Option<seq<nat>> {
    if s == "" then Some([])
    else
      var v, rest := value(s[0]), Values(s[1..], value);
      if v.None? || rest.None? then None else Some([v.value] + rest.value)
  }

  function Chars(vs: seq<nat>, symbol: nat -> char): string {
    if vs == [] then "" else [symbol(vs[0])] + Chars(vs[1..], symbol)
  }

  lemma {:induction false} ValuesOfChars(vs: seq<nat>, symbol: nat -> char, value: char -> Option<nat>, limit: nat)
    requires forall i :: 0 <= i < |vs| ==> vs[i] < limit
    requires forall v: nat :: v < limit ==> value(symbol(v)) == Some(v)
    ensures |Chars(vs, symbol)| == |vs|
    ensures Values(Chars(vs, symbol), value) == Some(vs)
  {
    if vs != [] {
      ValuesOfChars(vs[1..], symbol, value, limit);
      assert Chars(vs, symbol)[1..] == Chars(vs[1..], symbol);
      assert value(symbol(vs[0])) == Some(vs[0]);
      assert vs == [vs[0]] + vs[1..];
    }
  }

  // ---- Base 32: five bytes in eight characters ---------------------------------------------

  // A-Z, 2-7
  function Symbol32(v: nat): char {
    if v < 26 then 'A' + v as char else if v < 32 then '2' + (v - 26) as char else '?'
  }

  function Value32(c: char): Option<nat> {
    if 'A' <= c <= 'Z' then Some((c - 'A') as nat)
    else if '2' <= c <= '7' then Some((c - '2') as nat + 26)
    else None
  }

  function Split5(b: seq<Byte>): (v: seq<nat>)
    requires |b| == 5
    ensures |v| == 8 && forall i :: 0 <= i < 8 ==> v[i] < 32
  {
    [b[0] / 8, b[0] % 8 * 4 + b[1] / 64, b[1] / 2 % 32, b[1] % 2 * 16 + b[2] / 16,
     b[2] % 16 * 2 + b[3] / 128, b[3] / 4 % 32, b[3] % 4 * 8 + b[4] / 32, b[4] % 32]
  }

  function Join8(v: seq<nat>): (b: seq<Byte>)
    requires |v| == 8 && forall i :: 0 <= i < 8 ==> v[i] < 32
    ensures |b| == 5
  {
    [v[0] * 8 + v[1] / 4, v[1] % 4 * 64 + v[2] * 2 + v[3] / 16, v[3] % 16 * 16 + v[4] / 2,
     v[4] % 2 * 128 + v[5] * 4 + v[6] / 8, v[6] % 8 * 32 + v[7]]
  }

  lemma Byte0(a: Byte, b: Byte)
    ensures a / 8 * 8 + (a % 8 * 4 + b / 64) / 4 == a
  {
  }

  lemma Byte1(a: Byte, b: Byte, c: Byte)
    ensures (a % 8 * 4 + b / 64) % 4 * 64 + b / 2 % 32 * 2 + (b % 2 * 16 + c / 16) / 16 == b
  {
    assert (a % 8 * 4 + b / 64) % 4 == b / 64;
    assert (b % 2 * 16 + c / 16) / 16 == b % 2;
    assert b / 2 % 32 == b / 2 - b / 64 * 32;
  }

  lemma Byte2(b: Byte, c: Byte, d: Byte)
    ensures (b % 2 * 16 + c / 16) % 16 * 16 + (c % 16 * 2 + d / 128) / 2 == c
  {
  }

  lemma Byte3(c: Byte, d: Byte, e: Byte)
    ensures (c % 16 * 2 + d / 128) % 2 * 128 + d / 4 % 32 * 4 + (d % 4 * 8 + e / 32) / 8 == d
  {
  }

  lemma Byte4(d: Byte, e: Byte)
    ensures (d % 4 * 8 + e / 32) % 8 * 32 + e % 32 == e
  {
  }

  lemma Join8Is(v: seq<nat>, b: seq<Byte>)
    requires |v| == 8 && (forall i :: 0 <= i < 8 ==> v[i] < 32) && |b| == 5
    requires v[0] * 8 + v[1] / 4 == b[0]
    requires v[1] % 4 * 64 + v[2] * 2 + v[3] / 16 == b[1]
    requires v[3] % 16 * 16 + v[4] / 2 == b[2]
    requires v[4] % 2 * 128 + v[5] * 4 + v[6] / 8 == b[3]
    requires v[6] % 8 * 32 + v[7] == b[4]
    ensures Join8(v) == b
  {
  }

  lemma First3(b: seq<Byte>)
    requires |b| == 5
    ensures var v := Split5(b);
            && v[0] * 8 + v[1] / 4 == b[0]
            && v[1] % 4 * 64 + v[2] * 2 + v[3] / 16 == b[1]
            && v[3] % 16 * 16 + v[4] / 2 == b[2]
  {
    Byte0(b[0], b[1]);
    Byte1(b[0], b[1], b[2]);
    Byte2(b[1], b[2], b[3]);
  }

  lemma Last2(b: seq<Byte>)
    requires |b| == 5
    ensures var v := Split5(b);
            && v[4] % 2 * 128 + v[5] * 4 + v[6] / 8 == b[3]
            && v[6] % 8 * 32 + v[7] == b[4]
  {
    Byte3(b[2], b[3], b[4]);
    Byte4(b[3], b[4]);
  }

  lemma JoinSplit5(b: seq<Byte>)
    requires |b| == 5
    ensures Join8(Split5(b)) == b
  {
    First3(b);
    Last2(b);
    Join8Is(Split5(b), b);
  }

  function Encode32(b: seq<Byte>): string
    requires |b| == 5
  {
    Chars(Split5(b), Symbol32)
  }

  // The decoder checks the alphabet and nothing else: a block that is cut short is not an
  // error, whatever its length. Only whole blocks are given a value here.
  function Decode32(s: string): Option<seq<Byte>>
    requires |s| <= 8
  {
    var vs := Values(StripNewlines(s), Value32);
    if vs.None? then None
    else if |vs.value| == 8 && (forall i :: 0 <= i < 8 ==> vs.value[i] < 32) then Some(Join8(vs.value))
    else Some([])
  }

  lemma Alphabet32(v: nat)
    requires v < 32
    ensures Value32(Symbol32(v)) == Some(v)
  {
  }

  lemma RoundTrip32(b: seq<Byte>)
    requires |b| == 5
    ensures |Encode32(b)| == 8 && Decode32(Encode32(b)) == Some(b)
    ensures forall i :: 0 <= i < 8 ==> Value32(Encode32(b)[i]).Some?
  {
    var s := Encode32(b);
    forall v: nat | v < 32 ensures Value32(Symbol32(v)) == Some(v) {
      Alphabet32(v);
    }
    ValuesOfChars(Split5(b), Symbol32, Value32, 32);
    ValuesSome(s, Value32);
    StripNothing(s);
    JoinSplit5(b);
  }

  lemma {:induction false} ValuesSome(s: string, value: char -> Option<nat>)
    ensures Values(s, value).Some? <==> forall i :: 0 <= i < |s| ==> value(s[i]).Some?
    ensures Values(s, value).Some? ==> |Values(s, value).value| == |s|
    ensures Values(s, value).Some? ==> forall i :: 0 <= i < |s| ==> value(s[i]) == Some(Values(s, value).value[i])
  {
    if s != "" {
      ValuesSome(s[1..], value);
      assert forall i :: 0 < i < |s| ==> s[i] == s[1..][i - 1];
      assert forall i :: 0 <= i < |s[1..]| ==> s[1..][i] == s[i + 1];
    }
  }

  // ---- Base 64: three bytes in four characters ------------------------------------------------

  // A-Z, a-z, 0-9, - and _
  function Symbol64(v: nat): char {
    if v < 26 then 'A' + v as char
    else if v < 52 then 'a' + (v - 26) as char
    else if v < 62 then '0' + (v - 52) as char
    else if v == 62 then '-'
    else if v == 63 then '_'
    else '?'
  }

  function Value64(c: char): Option<nat> {
    if 'A' <= c <= 'Z' then Some((c - 'A') as nat)
    else if 'a' <= c <= 'z' then Some((c - 'a') as nat + 26)
    else if '0' <= c <= '9' then Some((c - '0') as nat + 52)
    else if c == '-' then Some(62)
    else if c == '_' then Some(63)
    else None
  }

  function Split6(b: seq<Byte>): (v: seq<nat>) {
    if b == [] then []
    else if |b| == 1 then [b[0] / 4, b[0] % 4 * 16]
    else if |b| == 2 then [b[0] / 4, b[0] % 4 * 16 + b[1] / 16, b[1] % 16 * 4]
    else [b[0] / 4, b[0] % 4 * 16 + b[1] / 16, b[1] % 16 * 4 + b[2] / 64, b[2] % 64] + Split6(b[3..])
  }

  ghost predicate Sixes(v: seq<nat>) {
    forall i :: 0 <= i < |v| ==> v[i] < 64
  }

  // A last block of two or three characters holds one or two bytes; its spare bits are
  // ignored. One character alone is an error.
  function Join6(v: seq<nat>): Option<seq<Byte>>
    requires Sixes(v)
  {
    if v == [] then Some([])
    else if |v| == 1 then None
    else if |v| == 2 then Some([v[0] * 4 + v[1] / 16])
    else if |v| == 3 then Some([v[0] * 4 + v[1] / 16, v[1] % 16 * 16 + v[2] / 4])
    else
      var rest := Join6(v[4..]);
      if rest.None? then None
      else Some([v[0] * 4 + v[1] / 16, v[1] % 16 * 16 + v[2] / 4, v[2] % 4 * 64 + v[3]] + rest.value)
  }

  lemma Block(a: Byte, b: Byte, c: Byte)
    ensures a / 4 * 4 + (a % 4 * 16 + b / 16) / 16 == a
    ensures (a % 4 * 16 + b / 16) % 16 * 16 + (b % 16 * 4 + c / 64) / 4 == b
    ensures (b % 16 * 4 + c / 64) % 4 * 64 + c % 64 == c
  {
  }

  lemma JoinOne(a: Byte)
    ensures var v := [a / 4, a % 4 * 16]; Sixes(v) && Join6(v) == Some([a])
  {
    assert a / 4 * 4 + a % 4 * 16 / 16 == a;
  }

  lemma JoinTwo(a: Byte, b: Byte)
    ensures var v := [a / 4, a % 4 * 16 + b / 16, b % 16 * 4]; Sixes(v) && Join6(v) == Some([a, b])
  {
    Block(a, b, 0);
  }

  lemma JoinBlock(a: Byte, b: Byte, c: Byte, rest: seq<nat>)
    requires Sixes(rest) && Join6(rest).Some?
    ensures var v := [a / 4, a % 4 * 16 + b / 16, b % 16 * 4 + c / 64, c % 64] + rest;
            Sixes(v) && Join6(v) == Some([a, b, c] + Join6(rest).value)
  {
    var v := [a / 4, a % 4 * 16 + b / 16, b % 16 * 4 + c / 64, c % 64] + rest;
    assert v[4..] == rest;
    Block(a, b, c);
  }

  lemma {:induction false} JoinSplit6(b: seq<Byte>)
    ensures Sixes(Split6(b)) && Join6(Split6(b)) == Some(b)
  {
    if |b| == 1 {
      JoinOne(b[0]);
      assert b == [b[0]];
    } else if |b| == 2 {
      JoinTwo(b[0], b[1]);
      assert b == [b[0], b[1]];
    } else if |b| >= 3 {
      JoinSplit6(b[3..]);
      JoinBlock(b[0], b[1], b[2], Split6(b[3..]));
      assert b == [b[0], b[1], b[2]] + b[3..];
    }
  }

  lemma {:induction false} Split6Length(b: seq<Byte>)
    ensures |Split6(b)| == (4 * |b| + 2) / 3
  {
    if |b| >= 3 {
      Split6Length(b[3..]);
    }
  }

  lemma {:induction false} Join6Accepts(v: seq<nat>)
    requires Sixes(v)
    ensures Join6(v).Some? <==> |v| % 4 != 1
  {
    if |v| >= 4 {
      Join6Accepts(v[4..]);
    }
  }

  lemma {:induction false} Values64AreSixes(s: string)
    ensures Values(s, Value64).Some? ==> Sixes(Values(s, Value64).value)
  {
    ValuesSome(s, Value64);
  }

  function Encode64(b: seq<Byte>): string {
    Chars(Split6(b), Symbol64)
  }

  function Decode64(s: string): Option<seq<Byte>> {
    var vs := Values(StripNewlines(s), Value64);
    Values64AreSixes(StripNewlines(s));
    if vs.None? then None else Join6(vs.value)
  }

  lemma Alphabet64(v: nat)
    requires v < 64
    ensures Value64(Symbol64(v)) == Some(v)
  {
  }

  lemma {:induction false} CharsOfSixes(vs: seq<nat>)
    requires Sixes(vs)
    ensures |Chars(vs, Symbol64)| == |vs| && Values(Chars(vs, Symbol64), Value64) == Some(vs)
  {
    forall v: nat | v < 64 ensures Value64(Symbol64(v)) == Some(v) {
      Alphabet64(v);
    }
    ValuesOfChars(vs, Symbol64, Value64, 64);
  }

  lemma {:induction false} DecodeClean(s: string, vs: seq<nat>)
    requires Values(s, Value64) == Some(vs) && Sixes(vs)
    ensures Decode64(s) == Join6(vs)
    ensures forall i :: 0 <= i < |s| ==> Value64(s[i]).Some?
  {
    ValuesSome(s, Value64);
    StripNothing(s);
  }

  lemma RoundTrip64(b: seq<Byte>)
    ensures |Encode64(b)| == (4 * |b| + 2) / 3 && Decode64(Encode64(b)) == Some(b)
    ensures forall i :: 0 <= i < |Encode64(b)| ==> Value64(Encode64(b)[i]).Some?
  {
    JoinSplit6(b);
    Split6Length(b);
    CharsOfSixes(Split6(b));
    DecodeClean(Encode64(b), Split6(b));
  }

  // Which strings the decoders accept.
  lemma {:induction false} DecodersAccept(s: string)
    ensures |s| <= 8 ==> (Decode32(s).Some? <==> forall c :: c in StripNewlines(s) ==> Value32(c).Some?)
    ensures Decode64(s).Some? <==>
            |StripNewlines(s)| % 4 != 1 && forall c :: c in StripNewlines(s) ==> Value64(c).Some?
  {
    var t := StripNewlines(s);
    ValuesSome(t, Value32);
    ValuesSome(t, Value64);
    Values64AreSixes(t);
    if Values(t, Value64).Some? {
      Join6Accepts(Values(t, Value64).value);
    }
  }
}
