/** Unpadded standard base64, as Go's `base64.RawStdEncoding` writes and reads
    it (sections 3.2 and 4 of RFC 4648). */
module Base64 {
  import opened Bytes
  import opened Wrappers

  const CR: byte := 13
  const LF: byte := 10

  /** The alphabet: A-Z, a-z, 0-9, +, /. */
  function Symbol(v: nat): (c: byte)
    requires v < 64
  {
    if v < 26 then 65 + v else if v < 52 then 71 + v else if v < 62 then v - 4 else if v == 62 then 43 else 47
  }

  function ValueOf(c: byte): Option<nat> {
    if 65 <= c <= 90 then Some(c - 65)
    else if 97 <= c <= 122 then Some(c - 71)
    else if 48 <= c <= 57 then Some(c + 4)
    else if c == 43 then Some(62)
    else if c == 47 then Some(63)
    else None
  }

  /** Every symbol reads back, and none is a line break or a '$'. */
  lemma SymbolReads(v: nat)
    requires v < 64
    ensures ValueOf(Symbol(v)) == Some(v) && Symbol(v) != CR && Symbol(v) != LF && Symbol(v) != 36
  {
  }

  function Encoded(s: Text): Text {
    if s == [] then []
    else if |s| == 1 then [Symbol(s[0] / 4), Symbol(s[0] % 4 * 16)]
    else if |s| == 2 then [Symbol(s[0] / 4), Symbol(s[0] % 4 * 16 + s[1] / 16), Symbol(s[1] % 16 * 4)]
    else [Symbol(s[0] / 4), Symbol(s[0] % 4 * 16 + s[1] / 16), Symbol(s[1] % 16 * 4 + s[2] / 64), Symbol(s[2] % 64)]
         + Encoded(s[3..])
  }

  /** Vectors of section 10 of RFC 4648, without their padding. */
  lemma Vectors()
    ensures Encoded([102]) == [90, 103] && Encoded([102, 111]) == [90, 109, 56]
    ensures Encoded([102, 111, 111, 98, 97, 114]) == [90, 109, 57, 118, 89, 109, 70, 121]
    ensures Symbol(62) == 43 && Symbol(63) == 47
  {
    assert [102, 111, 111, 98, 97, 114][3..] == [98, 97, 114];
    assert [98, 97, 114][3..] == [];
  }

  /** Go's decoder ignores line breaks. */
  function WithoutBreaks(s: Text): Text {
    if s == [] then [] else (if s[0] == CR || s[0] == LF then [] else [s[0]]) + WithoutBreaks(s[1..])
  }

  /** A line break anywhere changes nothing. */
  lemma {:induction false} BreaksIgnored(a: Text, b: Text)
    ensures Decoded(a + [13] + b) == Decoded(a + b) == Decoded(a + [10] + b)
  {
    WithoutBreak(a, 13, b);
    WithoutBreak(a, 10, b);
  }

  lemma {:induction false} WithoutBreak(a: Text, c: byte, b: Text)
    requires c == 13 || c == 10
    ensures WithoutBreaks(a + [c] + b) == WithoutBreaks(a + b)
  {
    if a == [] {
      assert a + [c] + b == [c] + b && a + b == b;
    } else {
      WithoutBreak(a[1..], c, b);
      assert (a + [c] + b)[1..] == a[1..] + [c] + b && (a + b)[1..] == a[1..] + b;
    }
  }

  /** The low bits that no byte needs are dropped, whatever they are. */
  function DecodedSymbols(s: Text): Option<Text> {
    if s == [] then Some([])
    else if |s| == 1 then None
    else if ValueOf(s[0]).None? || ValueOf(s[1]).None? then None
    else
      var a, b := ValueOf(s[0]).value, ValueOf(s[1]).value;
      if |s| == 2 then Some([a * 4 + b / 16])
      else if ValueOf(s[2]).None? then None
      else
        var c := ValueOf(s[2]).value;
        if |s| == 3 then Some([a * 4 + b / 16, b % 16 * 16 + c / 4])
        else if ValueOf(s[3]).None? || DecodedSymbols(s[4..]).None? then None
        else Some([a * 4 + b / 16, b % 16 * 16 + c / 4, c % 4 * 64 + ValueOf(s[3]).value] + DecodedSymbols(s[4..]).value)
  }

  function Decoded(s: Text): Option<Text> { DecodedSymbols(WithoutBreaks(s)) }

  predicate Plain(s: Text) { forall i :: 0 <= i < |s| ==> s[i] != CR && s[i] != LF && s[i] != 36 }

  lemma {:induction false} EncodedPlain(s: Text)
    ensures Plain(Encoded(s))
  {
    if |s| >= 1 {
      SymbolReads(s[0] / 4);
      if |s| == 1 {
        SymbolReads(s[0] % 4 * 16);
      } else {
        SymbolReads(s[0] % 4 * 16 + s[1] / 16);
        if |s| == 2 {
          SymbolReads(s[1] % 16 * 4);
        } else {
          SymbolReads(s[1] % 16 * 4 + s[2] / 64);
          SymbolReads(s[2] % 64);
          EncodedPlain(s[3..]);
        }
      }
    }
  }

  lemma {:induction false} PlainHasNoBreaks(s: Text)
    requires Plain(s)
    ensures WithoutBreaks(s) == s
  {
    if s != [] {
      PlainHasNoBreaks(s[1..]);
    }
  }

  /** Three bytes as four groups of six bits, and back. */
  lemma Regroup(x: byte, y: byte, z: byte)
    ensures x / 4 * 4 + (x % 4 * 16 + y / 16) / 16 == x
    ensures (x % 4 * 16 + y / 16) % 16 * 16 + (y % 16 * 4 + z / 64) / 4 == y
    ensures (y % 16 * 4 + z / 64) % 4 * 64 + z % 64 == z
  {
  }

  /** One group of four symbols. */
  lemma GroupReads(x: byte, y: byte, z: byte, rest: Text)
    requires DecodedSymbols(rest).Some?
    ensures DecodedSymbols([Symbol(x / 4), Symbol(x % 4 * 16 + y / 16), Symbol(y % 16 * 4 + z / 64), Symbol(z % 64)] + rest)
            == Some([x, y, z] + DecodedSymbols(rest).value)
  {
    hide Symbol, ValueOf;
    var s := [Symbol(x / 4), Symbol(x % 4 * 16 + y / 16), Symbol(y % 16 * 4 + z / 64), Symbol(z % 64)] + rest;
    assert s[4..] == rest;
    SymbolReads(x / 4);
    SymbolReads(x % 4 * 16 + y / 16);
    SymbolReads(y % 16 * 4 + z / 64);
    SymbolReads(z % 64);
    Regroup(x, y, z);
  }

  lemma {:induction false} SymbolsRead(s: Text)
    ensures DecodedSymbols(Encoded(s)) == Some(s)
  {
    hide Symbol, ValueOf;
    if |s| == 1 {
      SymbolReads(s[0] / 4);
      SymbolReads(s[0] % 4 * 16);
      Regroup(s[0], 0, 0);
      assert s == [s[0]];
    } else if |s| == 2 {
      SymbolReads(s[0] / 4);
      SymbolReads(s[0] % 4 * 16 + s[1] / 16);
      SymbolReads(s[1] % 16 * 4);
      Regroup(s[0], s[1], 0);
      assert s == [s[0], s[1]];
    } else if |s| > 2 {
      SymbolsRead(s[3..]);
      GroupReads(s[0], s[1], s[2], Encoded(s[3..]));
      assert s == [s[0], s[1], s[2]] + s[3..];
    }
  }

  /** Decoding undoes encoding. */
  lemma DecodesEncoded(s: Text)
    ensures Decoded(Encoded(s)) == Some(s)
  {
    EncodedPlain(s);
    PlainHasNoBreaks(Encoded(s));
    SymbolsRead(s);
  }
}
