/** The additional authenticated data that binds a stored payload to its row
    (internal/platform/crypto/aad.go) and the byte framing of request
    fingerprints (internal/idempotency/service.go). */
module Aad {
  import opened Bytes

  datatype Aad = Aad(itemId: Text, scope: Text, subjectId: Text,
                     payloadVersion: nat, revision: nat)
  {
    /** The Go field types: uint16 and uint64. */
    predicate Typed() {
      payloadVersion < 0x1_0000 && revision < 0x1_0000_0000_0000_0000
    }

    predicate FieldsShorterThan(bound: nat) {
      |itemId| < bound && |scope| < bound && |subjectId| < bound
    }
  }

  const FOUR_GIB: nat := 0x1_0000_0000

  function Domain(): Text {
    Ascii("tiny-password/vault-payload/aad/v1")
  }

  /** One length-prefixed field; the length goes through uint32. */
  function Field(f: Text): Text {
    LittleEndian(|f|, 4) + f
  }

  function Fields(fs: seq<Text>): Text {
    if fs == [] then [] else Field(fs[0]) + Fields(fs[1..])
  }

  function Tail(a: Aad): Text {
    LittleEndian(a.payloadVersion, 2) + LittleEndian(a.revision, 8)
  }

  function Encoded(a: Aad): Text {
    Domain() + Fields([a.itemId, a.scope, a.subjectId]) + Tail(a)
  }

  /** The encoder: a growing buffer, one pass over the three text fields. */
  method Encode(a: Aad) returns (buffer: Text)
    ensures buffer == Encoded(a)
  {
    var domain := Domain();
    buffer := domain;
    var fields := [a.itemId, a.scope, a.subjectId];
    for i := 0 to |fields|
      invariant buffer + Fields(fields[i..]) == domain + Fields(fields)
    {
      var prefix := LittleEndian(|fields[i]|, 4);
      assert fields[i..][0] == fields[i] && fields[i..][1..] == fields[i + 1..];
      buffer := buffer + prefix;
      buffer := buffer + fields[i];
    }
    assert fields[|fields|..] == [];
    var version := LittleEndian(a.payloadVersion, 2);
    buffer := buffer + version;
    var revision := LittleEndian(a.revision, 8);
    buffer := buffer + revision;
  }

  lemma {:induction false} FieldSplits(f: Text, rest: Text, g: Text, more: Text)
    requires |f| < FOUR_GIB && |g| < FOUR_GIB
    requires Field(f) + rest == Field(g) + more
    ensures f == g && rest == more
  {
    assert Field(f) + rest == LittleEndian(|f|, 4) + (f + rest);
    assert Field(g) + more == LittleEndian(|g|, 4) + (g + more);
    SplitEqual(LittleEndian(|f|, 4), f + rest, LittleEndian(|g|, 4), g + more);
    Widths();
    LittleEndianReads(|f|, 4);
    LittleEndianReads(|g|, 4);
    SplitEqual(f, rest, g, more);
  }

  lemma FieldsOfThree(a: Aad)
    ensures Encoded(a) ==
            Domain() + (Field(a.itemId) + (Field(a.scope) + (Field(a.subjectId) + Tail(a))))
  {
    var three := [a.itemId, a.scope, a.subjectId];
    assert three[1..] == [a.scope, a.subjectId];
    assert three[1..][1..] == [a.subjectId];
    var none: seq<Text> := [];
    assert three[1..][1..][1..] == none;
    assert Fields([a.subjectId]) == Field(a.subjectId);
    assert Fields([a.scope, a.subjectId]) == Field(a.scope) + Field(a.subjectId);
    assert Fields(three) == Field(a.itemId) + (Field(a.scope) + Field(a.subjectId));
  }

  /** One identity written out. */
  lemma Vector()
    ensures Encoded(Aad(Ascii("ab"), Ascii("c"), [], 1, 258))
            == Ascii("tiny-password/vault-payload/aad/v1")
               + ([2, 0, 0, 0, 97, 98] + ([1, 0, 0, 0, 99] + ([0, 0, 0, 0] + [1, 0, 2, 1, 0, 0, 0, 0, 0, 0])))
  {
    var a := Aad(Ascii("ab"), Ascii("c"), [], 1, 258);
    VectorParts();
    FieldsOfThree(a);
    hide *;
  }

  lemma VectorParts()
    ensures Field(Ascii("ab")) == [2, 0, 0, 0, 97, 98] && Field(Ascii("c")) == [1, 0, 0, 0, 99] && Field([]) == [0, 0, 0, 0]
    ensures Tail(Aad(Ascii("ab"), Ascii("c"), [], 1, 258)) == [1, 0, 2, 1, 0, 0, 0, 0, 0, 0]
  {
    Small(2, 4);
    Small(1, 4);
    Small(0, 4);
    Small(1, 2);
    Small(1, 7);
    assert LittleEndian(258, 8) == [2] + LittleEndian(1, 7);
  }

  lemma {:induction false} Small(n: byte, width: nat)
    requires width > 0
    ensures LittleEndian(n, width) == [n] + Zeros(width - 1)
  {
    if width > 1 {
      Small(0, width - 1);
    }
  }

  lemma TailInjective(a: Aad, b: Aad)
    requires a.Typed() && b.Typed() && Tail(a) == Tail(b)
    ensures a.payloadVersion == b.payloadVersion && a.revision == b.revision
  {
    SplitEqual(LittleEndian(a.payloadVersion, 2), LittleEndian(a.revision, 8),
               LittleEndian(b.payloadVersion, 2), LittleEndian(b.revision, 8));
    Widths();
    LittleEndianReads(a.payloadVersion, 2);
    LittleEndianReads(b.payloadVersion, 2);
    LittleEndianReads(a.revision, 8);
    LittleEndianReads(b.revision, 8);
  }

  /** No two row identities share an encoding while every text field is
      shorter than 4 GiB. */
  lemma EncodedInjective(a: Aad, b: Aad)
    requires a.Typed() && b.Typed()
    requires a.FieldsShorterThan(FOUR_GIB) && b.FieldsShorterThan(FOUR_GIB)
    requires Encoded(a) == Encoded(b)
    ensures a == b
  {
    FieldsOfThree(a);
    FieldsOfThree(b);
    SplitEqual(Domain(), Field(a.itemId) + (Field(a.scope) + (Field(a.subjectId) + Tail(a))),
               Domain(), Field(b.itemId) + (Field(b.scope) + (Field(b.subjectId) + Tail(b))));
    FieldSplits(a.itemId, Field(a.scope) + (Field(a.subjectId) + Tail(a)),
                b.itemId, Field(b.scope) + (Field(b.subjectId) + Tail(b)));
    FieldSplits(a.scope, Field(a.subjectId) + Tail(a), b.scope, Field(b.subjectId) + Tail(b));
    FieldSplits(a.subjectId, Tail(a), b.subjectId, Tail(b));
    TailInjective(a, b);
  }

  function Zeros(n: nat): (z: Text)
    ensures |z| == n && forall i :: 0 <= i < n ==> z[i] == 0
  {
    seq(n, _ => 0)
  }

  /** At 4 GiB the 32-bit length prefix wraps to zero and two different row
      identities collide. */
  lemma EncodedCollides(version: nat, revision: nat)
    ensures var a := Aad(Zeros(FOUR_GIB), [], [], version, revision);
            var b := Aad([], Zeros(FOUR_GIB), [], version, revision);
            a != b && Encoded(a) == Encoded(b)
  {
    var z := Zeros(FOUR_GIB);
    var a := Aad(z, [], [], version, revision);
    var b := Aad([], z, [], version, revision);
    assert |a.itemId| != |b.itemId|;
    FieldsOfThree(a);
    FieldsOfThree(b);
    var four := LittleEndian(0, 4);
    assert four == Zeros(4) by { assert LittleEndian(0, 2) == [0, 0]; }
    assert LittleEndian(FOUR_GIB, 4) == four by {
      assert FOUR_GIB / 256 / 256 == 0x1_0000;
      assert LittleEndian(0x1_0000, 2) == [0, 0];
    }
    assert Field([]) == four;
    assert Field(z) == four + z;
    assert z + four == four + z;
    assert (four + z) + (four + (four + Tail(a))) == four + ((z + four) + (four + Tail(a)));
    assert four + ((four + z) + (four + Tail(b))) == four + ((four + z) + (four + Tail(b)));
  }

  ghost predicate InjectiveBelow(bound: nat) {
    forall a: Aad, b: Aad ::
      (a.Typed() && b.Typed() && a.FieldsShorterThan(bound) && b.FieldsShorterThan(bound)
       && Encoded(a) == Encoded(b))
      ==> a == b
  }

  /** 4 GiB is exactly the bound up to which the encoding is injective. */
  lemma InjectivityBound(bound: nat)
    ensures InjectiveBelow(bound) <==> bound <= FOUR_GIB
  {
    if bound <= FOUR_GIB {
      forall a: Aad, b: Aad |
        a.Typed() && b.Typed() && a.FieldsShorterThan(bound) && b.FieldsShorterThan(bound)
        && Encoded(a) == Encoded(b)
        ensures a == b
      {
        EncodedInjective(a, b);
      }
    } else {
      EncodedCollides(1, 1);
      var a := Aad(Zeros(FOUR_GIB), [], [], 1, 1);
      var b := Aad([], Zeros(FOUR_GIB), [], 1, 1);
      assert a.Typed() && b.Typed();
      assert a.FieldsShorterThan(bound) && b.FieldsShorterThan(bound);
    }
  }
}

/** Length-prefixed framing of the field list that a request fingerprint MACs. */
module Fingerprint {
  import opened Bytes

  /** A Go string: its length is a non-negative int64. */
  predicate GoString(s: Text) {
    |s| < 0x8000_0000_0000_0000
  }

  function Frame(f: Text): Text {
    BigEndian(|f|, 8) + f
  }

  function Framed(fields: seq<Text>): Text {
    if fields == [] then [] else Frame(fields[0]) + Framed(fields[1..])
  }

  /** What `Fingerprint` writes into the MAC, field by field. */
  method Write(fields: seq<Text>) returns (written: Text)
    ensures written == Framed(fields)
  {
    written := [];
    for i := 0 to |fields|
      invariant written + Framed(fields[i..]) == Framed(fields)
    {
      assert fields[i..][0] == fields[i] && fields[i..][1..] == fields[i + 1..];
      written := written + BigEndian(|fields[i]|, 8);
      written := written + fields[i];
    }
    assert fields[|fields|..] == [];
  }

  /** One field list written out. */
  lemma Vector()
    ensures Framed([Ascii("ab"), []]) == [0, 0, 0, 0, 0, 0, 0, 2, 97, 98, 0, 0, 0, 0, 0, 0, 0, 0]
  {
    Small(2, 8);
    Small(0, 8);
    assert [Ascii("ab"), []][1..] == [[]];
    assert Frame([]) == seq(8, _ => 0);
    assert Frame(Ascii("ab")) == [0, 0, 0, 0, 0, 0, 0, 2, 97, 98];
    assert Framed([[]]) == Frame([]);
  }

  lemma {:induction false} Small(n: byte, width: nat)
    requires width > 0
    ensures BigEndian(n, width) == seq(width - 1, _ => 0) + [n]
  {
    if width > 1 {
      Small(0, width - 1);
    }
  }

  lemma FrameSplits(x: Text, rest: Text, y: Text, more: Text)
    requires GoString(x) && GoString(y)
    requires Frame(x) + rest == Frame(y) + more
    ensures x == y && rest == more
  {
    assert Frame(x) + rest == BigEndian(|x|, 8) + (x + rest);
    assert Frame(y) + more == BigEndian(|y|, 8) + (y + more);
    SplitEqual(BigEndian(|x|, 8), x + rest, BigEndian(|y|, 8), y + more);
    Widths();
    BigEndianReads(|x|, 8);
    BigEndianReads(|y|, 8);
    SplitEqual(x, rest, y, more);
  }

  /** Different field lists are never MACed as the same bytes. */
  lemma {:induction false} FramedInjective(xs: seq<Text>, ys: seq<Text>)
    requires forall i :: 0 <= i < |xs| ==> GoString(xs[i])
    requires forall i :: 0 <= i < |ys| ==> GoString(ys[i])
    requires Framed(xs) == Framed(ys)
    ensures xs == ys
  {
    if xs != [] && ys != [] {
      FrameSplits(xs[0], Framed(xs[1..]), ys[0], Framed(ys[1..]));
      FramedInjective(xs[1..], ys[1..]);
      assert xs == [xs[0]] + xs[1..] && ys == [ys[0]] + ys[1..];
    }
  }
}
