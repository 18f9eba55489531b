/** Unpadded base64 (sections 3.2 and 4 of RFC 4648) as Go's raw encodings print and read it. */
module Base64 {
  import opened Wrappers

  type byte = b: int | 0 <= b < 256

  datatype Alphabet = Standard | URLSafe

  function Symbol(a: Alphabet, v: int): char
    requires 0 <= v < 64
  {
    if v < 26 then (v + 'A' as int) as char
    else if v < 52 then (v - 26 + 'a' as int) as char
    else if v < 62 then (v - 52 + '0' as int) as char
    else if v == 62 then (if a == Standard then '+' else '-')
    else (if a == Standard then '/' else '_')
  }

  /** The value of a symbol, or -1. */
  function Value(a: Alphabet, c: char): (v: int)
    ensures -1 <= v < 64
    ensures v >= 0 ==> Symbol(a, v) == c
  {
    if 'A' <= c <= 'Z' then c as int - 'A' as int
    else if 'a' <= c <= 'z' then c as int - 'a' as int + 26
    else if '0' <= c <= '9' then c as int - '0' as int + 52
    else if c == (if a == Standard then '+' else '-') then 62
    else if c == (if a == Standard then '/' else '_') then 63
    else -1
  }

  lemma ValueOfSymbol(a: Alphabet, v: int)
    requires 0 <= v < 64
    ensures Value(a, Symbol(a, v)) == v
    ensures Symbol(a, v) !in ['$', '\r', '\n', ' ', '=']
  {
  }

  const UPPER := "ABCDEFGHIJKLMNOPQRSTUVWXYZ"
  const LOWER := "abcdefghijklmnopqrstuvwxyz"
  const DIGITS := "0123456789"

  /** The symbols are those of tables 1 and 2 of RFC 4648. */
  lemma SymbolIsTabled(a: Alphabet, v: int)
    requires 0 <= v < 64
    ensures Symbol(a, v) == (UPPER + LOWER + DIGITS + (if a == Standard then "+/" else "-_"))[v]
  {
    assert forall i :: 0 <= i < 26 ==> UPPER[i] == (65 + i) as char;
    assert forall i :: 0 <= i < 26 ==> LOWER[i] == (97 + i) as char;
    assert forall i :: 0 <= i < 10 ==> DIGITS[i] == (48 + i) as char;
  }

  function Encode(a: Alphabet, b: seq<byte>): string {
    if |b| == 0 then ""
    else if |b| == 1 then [Symbol(a, b[0] / 4), Symbol(a, b[0] % 4 * 16)]
    else if |b| == 2 then [Symbol(a, b[0] / 4), Symbol(a, b[0] % 4 * 16 + b[1] / 16), Symbol(a, b[1] % 16 * 4)]
    else [Symbol(a, b[0] / 4), Symbol(a, b[0] % 4 * 16 + b[1] / 16), Symbol(a, b[1] % 16 * 4 + b[2] / 64), Symbol(a, b[2] % 64)]
         + Encode(a, b[3..])
  }

  function Values(a: Alphabet, s: string): (v: seq<int>)
    ensures |v| == |s|
  {
    seq(|s|, i requires 0 <= i < |s| => Value(a, s[i]))
  }

  /** Groups of four six-bit values to groups of three bytes; two or three left over give one or two
      bytes, whose unused bits are ignored, and one left over is an error. */
  function Regroup(v: seq<int>): Option<seq<byte>>
    requires forall i :: 0 <= i < |v| ==> 0 <= v[i] < 64
  {
    if |v| == 0 then Some([])
    else if |v| == 1 then None
    else
      var b0 := v[0] * 4 + v[1] / 16;
      if |v| == 2 then Some([b0])
      else
        var b1 := v[1] % 16 * 16 + v[2] / 4;
        if |v| == 3 then Some([b0, b1])
        else
          var b2 := v[2] % 4 * 64 + v[3];
          match Regroup(v[4..])
          case None => None
          case Some(rest) => Some([b0, b1, b2] + rest)
  }

  function DropLineBreaks(s: string): string {
    if s == "" then ""
    else if s[0] == '\r' || s[0] == '\n' then DropLineBreaks(s[1..])
    else [s[0]] + DropLineBreaks(s[1..])
  }

  /** `DecodeString`: line breaks are skipped and any other foreign character is an error. */
  function Decode(a: Alphabet, s: string): Option<seq<byte>> {
    var v := Values(a, DropLineBreaks(s));
    if exists i :: 0 <= i < |v| && v[i] < 0 then None else Regroup(v)
  }

  /** The six-bit values behind an encoding. */
  function Sextets(b: seq<byte>): (v: seq<int>)
    ensures forall i :: 0 <= i < |v| ==> 0 <= v[i] < 64
  {
    if |b| == 0 then []
    else if |b| == 1 then [b[0] / 4, b[0] % 4 * 16]
    else if |b| == 2 then [b[0] / 4, b[0] % 4 * 16 + b[1] / 16, b[1] % 16 * 4]
    else [b[0] / 4, b[0] % 4 * 16 + b[1] / 16, b[1] % 16 * 4 + b[2] / 64, b[2] % 64] + Sextets(b[3..])
  }

  /** Each group of bytes, read as one number with zero bits appended, is its group of six-bit values read so. */
  lemma GroupsAreNumbers(b0: byte, b1: byte, b2: byte)
    ensures var v := Sextets([b0]); |v| == 2 && 64 * v[0] + v[1] == 16 * b0
    ensures var v := Sextets([b0, b1]); |v| == 3 && 64 * (64 * v[0] + v[1]) + v[2] == 4 * (256 * b0 + b1)
    ensures var v := Sextets([b0, b1, b2]);
            |v| == 4 && 64 * (64 * (64 * v[0] + v[1]) + v[2]) + v[3] == 256 * (256 * b0 + b1) + b2
  {
    assert Sextets([]) == [];
    assert [b0, b1, b2][3..] == [];
  }

  /** Whole groups are encoded one after the other. */
  lemma GroupsInOrder(b: seq<byte>, first: seq<byte>)
    requires |b| >= 3 && first == b[..3]
    ensures Sextets(b) == Sextets(first) + Sextets(b[3..])
  {
    var group := [b[0] / 4, b[0] % 4 * 16 + b[1] / 16, b[1] % 16 * 4 + b[2] / 64, b[2] % 64];
    assert Sextets(b) == group + Sextets(b[3..]);
    assert first[3..] == [] && first[0] == b[0] && first[1] == b[1] && first[2] == b[2];
    assert Sextets(first) == group + Sextets([]) == group;
  }

  lemma {:induction false} EncodeIsSextets(a: Alphabet, b: seq<byte>)
    ensures |Encode(a, b)| == |Sextets(b)|
    ensures forall i :: 0 <= i < |Sextets(b)| ==> Encode(a, b)[i] == Symbol(a, Sextets(b)[i])
  {
    if |b| >= 3 { EncodeIsSextets(a, b[3..]); }
  }

  lemma PackBytes(b0: byte, b1: byte, b2: byte)
    ensures b0 / 4 * 4 + (b0 % 4 * 16 + b1 / 16) / 16 == b0
    ensures (b0 % 4 * 16 + b1 / 16) % 16 * 16 + (b1 % 16 * 4 + b2 / 64) / 4 == b1
    ensures (b1 % 16 * 4 + b2 / 64) % 4 * 64 + b2 % 64 == b2
    ensures b0 / 4 * 4 + b0 % 4 * 16 / 16 == b0
    ensures (b0 % 4 * 16 + b1 / 16) % 16 * 16 + b1 % 16 * 4 / 4 == b1
  {
    assert (b0 % 4 * 16 + b1 / 16) / 16 == b0 % 4 && (b0 % 4 * 16 + b1 / 16) % 16 == b1 / 16;
    assert (b1 % 16 * 4 + b2 / 64) / 4 == b1 % 16 && (b1 % 16 * 4 + b2 / 64) % 4 == b2 / 64;
  }

  lemma SplitSextets(v0: int, v1: int, v2: int, v3: int)
    requires 0 <= v0 < 64 && 0 <= v1 < 64 && 0 <= v2 < 64 && 0 <= v3 < 64
    ensures var b0, b1, b2 := v0 * 4 + v1 / 16, v1 % 16 * 16 + v2 / 4, v2 % 4 * 64 + v3;
            && b0 / 4 == v0 && b0 % 4 * 16 + b1 / 16 == v1 && b1 % 16 * 4 + b2 / 64 == v2 && b2 % 64 == v3
            && (b0 % 4 * 16 == v1 <==> v1 % 16 == 0)
            && (b1 % 16 * 4 == v2 <==> v2 % 4 == 0)
  {
    var b0, b1, b2 := v0 * 4 + v1 / 16, v1 % 16 * 16 + v2 / 4, v2 % 4 * 64 + v3;
    assert b0 / 4 == v0 && b0 % 4 == v1 / 16;
    assert b1 / 16 == v1 % 16 && b1 % 16 == v2 / 4;
    assert b2 / 64 == v2 % 4 && b2 % 64 == v3;
  }

  lemma {:induction false} RegroupSextets(b: seq<byte>)
    ensures Regroup(Sextets(b)) == Some(b)
  {
    var v := Sextets(b);
    if |b| == 1 {
      PackBytes(b[0], 0, 0);
      assert v[0] * 4 + v[1] / 16 == b[0];
      assert b == [b[0]];
    } else if |b| == 2 {
      PackBytes(b[0], b[1], 0);
      assert v[0] * 4 + v[1] / 16 == b[0];
      assert v[1] % 16 * 16 + v[2] / 4 == b[1];
      assert b == [b[0], b[1]];
    } else if |b| >= 3 {
      PackBytes(b[0], b[1], b[2]);
      assert v[0] * 4 + v[1] / 16 == b[0];
      assert v[1] % 16 * 16 + v[2] / 4 == b[1];
      assert v[2] % 4 * 64 + v[3] == b[2];
      RegroupSextets(b[3..]);
      assert v[4..] == Sextets(b[3..]);
      assert b == [b[0], b[1], b[2]] + b[3..];
    }
  }

  lemma {:induction false} NoLineBreaks(s: string)
    requires '\r' !in s && '\n' !in s
    ensures DropLineBreaks(s) == s
  {
    if s != "" {
      NoLineBreaks(s[1..]);
      assert s == [s[0]] + s[1..];
    }
  }

  lemma EncodeCharacters(a: Alphabet, b: seq<byte>)
    ensures forall c :: c in Encode(a, b) ==> c !in ['$', '\r', '\n', ' ', '='] && Value(a, c) >= 0
  {
    EncodeIsSextets(a, b);
    forall c | c in Encode(a, b) ensures c !in ['$', '\r', '\n', ' ', '='] && Value(a, c) >= 0 {
      var i :| 0 <= i < |Encode(a, b)| && Encode(a, b)[i] == c;
      ValueOfSymbol(a, Sextets(b)[i]);
    }
  }

  /** Decoding undoes encoding, whatever the length leaves over modulo three. */
  lemma DecodeUndoesEncode(a: Alphabet, b: seq<byte>)
    ensures Decode(a, Encode(a, b)) == Some(b)
  {
    var s, v := Encode(a, b), Sextets(b);
    EncodeCharacters(a, b);
    NoLineBreaks(s);
    EncodeIsSextets(a, b);
    forall i | 0 <= i < |v| ensures Value(a, s[i]) == v[i] { ValueOfSymbol(a, v[i]); }
    assert Values(a, s) == v;
    RegroupSextets(b);
  }

  /** The bits of the last symbol that no byte uses are zero. */
  predicate UnusedBitsZero(v: seq<int>) {
    && (|v| % 4 == 2 ==> v[|v| - 1] % 16 == 0)
    && (|v| % 4 == 3 ==> v[|v| - 1] % 4 == 0)
  }

  /** The same on six-bit values: regrouping them and taking them apart again gives the same values exactly
      when the unused bits were zero. */
  lemma {:induction false} RegroupThenPrintIff(v: seq<int>)
    requires forall i :: 0 <= i < |v| ==> 0 <= v[i] < 64
    requires Regroup(v).Some?
    ensures Sextets(Regroup(v).value) == v <==> UnusedBitsZero(v)
  {
    if |v| == 2 {
      SplitSextets(v[0], v[1], 0, 0);
    } else if |v| == 3 {
      SplitSextets(v[0], v[1], v[2], 0);
    } else if |v| >= 4 {
      var b := Regroup(v).value;
      SplitSextets(v[0], v[1], v[2], v[3]);
      RegroupThenPrintIff(v[4..]);
      RegroupStep(v);
      SextetsStep(b, v);
      UnusedBitsStep(v);
    }
  }

  lemma EncodeIsText(a: Alphabet, b: seq<byte>, s: string)
    requires forall i :: 0 <= i < |s| ==> Value(a, s[i]) >= 0
    ensures Encode(a, b) == s <==> Sextets(b) == Values(a, s)
  {
    var v := Sextets(b);
    EncodeIsSextets(a, b);
    forall i | 0 <= i < |v| ensures Value(a, Encode(a, b)[i]) == v[i] { ValueOfSymbol(a, v[i]); }
  }

  /** What the reader accepts prints back as the same text exactly when the text has no line breaks, which
      the reader skips, and the unused bits of its last symbol, which it ignores, are zero. */
  lemma DecodeThenEncodeIff(a: Alphabet, s: string)
    requires Decode(a, s).Some?
    ensures Encode(a, Decode(a, s).value) == s <==> '\r' !in s && '\n' !in s && UnusedBitsZero(Values(a, s))
  {
    hide Encode, Sextets, Regroup, Value, UnusedBitsZero;
    var b := Decode(a, s).value;
    if '\r' !in s && '\n' !in s {
      NoLineBreaks(s);
      var v := Values(a, s);
      RegroupThenPrintIff(v);
      forall i | 0 <= i < |s| ensures Value(a, s[i]) >= 0 { assert v[i] >= 0; }
      EncodeIsText(a, b, s);
    } else {
      EncodeCharacters(a, b);
    }
  }

  /** Line breaks may stand anywhere in a text and are skipped. */
  lemma LineBreaksAreSkipped(a: Alphabet, before: string, c: char, after: string)
    requires c == '\r' || c == '\n'
    ensures Decode(a, before + [c] + after) == Decode(a, before + after)
  {
    DropConcat(before, after);
    DropConcat([c], after);
    DropConcat(before, [c] + after);
    assert before + [c] + after == before + ([c] + after);
    assert DropLineBreaks([c]) == DropLineBreaks([c][1..]) == "";
    hide DropLineBreaks;
  }

  lemma {:induction false} DropConcat(a: string, b: string)
    ensures DropLineBreaks(a + b) == DropLineBreaks(a) + DropLineBreaks(b)
  {
    if a == "" {
      assert a + b == b;
    } else {
      DropConcat(a[1..], b);
      assert (a + b)[1..] == a[1..] + b;
    }
  }

  lemma UnusedBitsStep(v: seq<int>)
    requires |v| >= 4
    ensures UnusedBitsZero(v) <==> UnusedBitsZero(v[4..])
  {
    assert |v| % 4 == |v[4..]| % 4;
  }

  lemma RegroupStep(v: seq<int>)
    requires |v| >= 4 && forall i :: 0 <= i < |v| ==> 0 <= v[i] < 64
    requires Regroup(v).Some?
    ensures var b := Regroup(v).value;
            && |b| >= 3 && Regroup(v[4..]) == Some(b[3..])
            && b[0] == v[0] * 4 + v[1] / 16 && b[1] == v[1] % 16 * 16 + v[2] / 4 && b[2] == v[2] % 4 * 64 + v[3]
  {
    var rest := Regroup(v[4..]).value;
    var b := Regroup(v).value;
    assert b[3..] == rest;
  }

  lemma SextetsStep(b: seq<byte>, v: seq<int>)
    requires |b| >= 3 && |v| >= 4
    requires b[0] / 4 == v[0] && b[0] % 4 * 16 + b[1] / 16 == v[1] && b[1] % 16 * 4 + b[2] / 64 == v[2] && b[2] % 64 == v[3]
    ensures Sextets(b) == v <==> Sextets(b[3..]) == v[4..]
  {
    var group := [v[0], v[1], v[2], v[3]];
    assert Sextets(b) == group + Sextets(b[3..]);
    hide Sextets;
    assert v == group + v[4..];
    assert Sextets(b)[4..] == Sextets(b[3..]);
  }
}
