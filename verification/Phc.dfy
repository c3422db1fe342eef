/** The PHC string of a stored password hash: printing and parsing
    (internal/auth/password.go, encodeHash and parseHash), with the parts of
    `fmt`, `strings` and `encoding/base64` they stand on. */
module Phc {
  import opened Bytes
  import opened Wrappers
  import opened Base64

  const DOLLAR: byte := 36
  const VERSION: nat := 19
  const MAX_MEMORY: nat := 1048576
  const MAX_ITERATIONS: nat := 64
  const MAX_PARALLELISM: nat := 16
  const KEY_LENGTH: nat := 32
  const MIN_SALT: nat := 8

  datatype HashParams = HashParams(memoryKiB: nat, iterations: nat, parallelism: nat) {
    predicate InRange() {
      && 1 <= memoryKiB <= MAX_MEMORY && 1 <= iterations <= MAX_ITERATIONS && 1 <= parallelism <= MAX_PARALLELISM
    }
  }

  datatype Parsed = Parsed(params: HashParams, salt: Text, key: Text)

  // ----- %d, printed and scanned -----

  function Decimal(n: nat): (s: Text)
    ensures s != [] && forall i :: 0 <= i < |s| ==> IsDigit(s[i])
  {
    if n < 10 then [48 + n] else Decimal(n / 10) + [48 + n % 10]
  }

  predicate IsDigit(c: byte) { 48 <= c <= 57 }

  /** How many digits s starts with. */
  function DigitRun(s: Text): (k: nat)
    ensures k <= |s|
  {
    if s == [] || !IsDigit(s[0]) then 0 else 1 + DigitRun(s[1..])
  }

  function Number(digits: Text): nat
    requires forall i :: 0 <= i < |digits| ==> IsDigit(digits[i])
  {
    if digits == [] then 0
    else
      assert IsDigit(digits[|digits| - 1]);
      10 * Number(digits[..|digits| - 1]) + (digits[|digits| - 1] - 48)
  }

  lemma {:induction false} DigitRunDigits(s: Text)
    ensures forall i :: 0 <= i < DigitRun(s) ==> IsDigit(s[i])
  {
    if s != [] && IsDigit(s[0]) {
      DigitRunDigits(s[1..]);
      assert forall i :: 1 <= i < DigitRun(s) ==> s[i] == s[1..][i - 1];
    }
  }

  predicate IsSpace(c: byte) { c == 32 || c == 9 || c == 11 || c == 12 || c == 13 }

  function SkipSpace(s: Text): Text {
    if s != [] && IsSpace(s[0]) then SkipSpace(s[1..]) else s
  }

  /** `%d` into an unsigned variable below `limit`: leading spaces, at least one
      digit, no sign; what follows is left for the rest of the format. */
  function ScanUnsigned(s: Text, limit: nat): Option<(nat, Text)> {
    DigitRunDigits(SkipSpace(s));
    var t := SkipSpace(s);
    var k := DigitRun(t);
    if k == 0 || Number(t[..k]) >= limit then None else Some((Number(t[..k]), t[k..]))
  }

  /** `%d` into an `int`. */
  function ScanInt(s: Text): Option<(int, Text)> {
    var t := SkipSpace(s);
    if t != [] && (t[0] == 43 || t[0] == 45) then
      DigitRunDigits(t[1..]);
      var k := DigitRun(t[1..]);
      if k == 0 || Number(t[1..][..k]) >= 0x8000_0000_0000_0000 then None
      else
        var v: int := Number(t[1..][..k]);
        Some((if t[0] == 45 then -v else v, t[1..][k..]))
    else
      DigitRunDigits(t);
      var k := DigitRun(t);
      if k == 0 || Number(t[..k]) >= 0x8000_0000_0000_0000 then None else Some((Number(t[..k]), t[k..]))
  }

  /** Blanks before a number do not count; a sign does, where none may be. */
  lemma BlanksSkipped(s: Text, limit: nat)
    ensures ScanUnsigned([32] + s, limit) == ScanUnsigned(s, limit) == ScanUnsigned([9] + s, limit)
    ensures ScanInt([32] + s) == ScanInt(s)
    ensures ScanUnsigned([43] + s, limit) == None == ScanUnsigned([45] + s, limit)
  {
    assert ([32] + s)[1..] == s && ([9] + s)[1..] == s;
  }

  function ScanLiteral(s: Text, literal: Text): Option<Text> {
    if literal <= s then Some(s[|literal|..]) else None
  }

  // ----- strings.Split -----

  function Split(s: Text): (parts: seq<Text>)
    ensures parts != []
  {
    if s == [] then [[]]
    else if s[0] == DOLLAR then [[]] + Split(s[1..])
    else var rest := Split(s[1..]); [[s[0]] + rest[0]] + rest[1..]
  }

  lemma {:induction false} SplitPart(part: Text, rest: Text)
    requires DOLLAR !in part
    ensures Split(part + [DOLLAR] + rest) == [part] + Split(rest)
  {
    var s := part + [DOLLAR] + rest;
    if part == [] {
      assert s[1..] == rest;
    } else {
      SplitPart(part[1..], rest);
      assert s[1..] == part[1..] + [DOLLAR] + rest;
      assert part == [part[0]] + part[1..];
    }
  }

  lemma {:induction false} SplitLast(part: Text)
    requires DOLLAR !in part
    ensures Split(part) == [part]
  {
    if part != [] {
      SplitLast(part[1..]);
      assert part == [part[0]] + part[1..];
    }
  }

  // ----- the PHC string -----

  function VersionPart(): Text { Ascii("v=") + Decimal(VERSION) }

  function ParamsPart(p: HashParams): Text {
    Ascii("m=") + Decimal(p.memoryKiB) + Ascii(",t=") + Decimal(p.iterations) + Ascii(",p=") + Decimal(p.parallelism)
  }

  /** The parameters part of a hash with 64 MiB, three passes and two lanes. */
  lemma Vector()
    ensures VersionPart() == Ascii("v=19")
    ensures ParamsPart(HashParams(65536, 3, 2)) == Ascii("m=65536,t=3,p=2")
  {
    assert Decimal(19) == Decimal(1) + [57];
    assert Decimal(65) == Decimal(6) + [53];
    assert Decimal(6553) == Decimal(65) + [53, 51];
    assert Decimal(65536) == Decimal(6553) + [54];
  }

  /** `encodeHash`. */
  function Encode(p: HashParams, salt: Text, key: Text): Text {
    [DOLLAR] + (Ascii("argon2id") + [DOLLAR] + (VersionPart() + [DOLLAR] +
      (ParamsPart(p) + [DOLLAR] + (Encoded(salt) + [DOLLAR] + Encoded(key)))))
  }

  function ParseParams(s: Text): Option<HashParams> {
    var a := ScanLiteral(s, Ascii("m="));
    if a.None? then None else
    var m := ScanUnsigned(a.value, 0x1_0000_0000);
    if m.None? then None else
    var b := ScanLiteral(m.value.1, Ascii(",t="));
    if b.None? then None else
    var t := ScanUnsigned(b.value, 0x1_0000_0000);
    if t.None? then None else
    var c := ScanLiteral(t.value.1, Ascii(",p="));
    if c.None? then None else
    var p := ScanUnsigned(c.value, 0x100);
    if p.None? then None else Some(HashParams(m.value.0, t.value.0, p.value.0))
  }

  function ParseVersion(s: Text): Option<int> {
    var a := ScanLiteral(s, Ascii("v="));
    if a.None? then None else
    var v := ScanInt(a.value);
    if v.None? then None else Some(v.value.0)
  }

  /** `parseHash`; None is ErrHashFormat. */
  function Parse(encoded: Text): Option<Parsed> {
    var parts := Split(encoded);
    if |parts| != 6 then None
    else if parts[0] != [] || parts[1] != Ascii("argon2id") then None
    else if ParseVersion(parts[2]) != Some(VERSION) then None
    else
      var params := ParseParams(parts[3]);
      if params.None? || !params.value.InRange() then None
      else
        var salt := Decoded(parts[4]);
        if salt.None? || |salt.value| < MIN_SALT then None
        else
          var key := Decoded(parts[5]);
          if key.None? || |key.value| != KEY_LENGTH then None
          else Some(Parsed(params.value, salt.value, key.value))
  }

  /** What is accepted: six parts, the name, version 19, parameters within the
      bounds a hash may ask for, a salt of eight bytes or more, a key of 32. */
  lemma ParsesIff(encoded: Text, r: Parsed)
    ensures Parse(encoded) == Some(r) <==>
              var parts := Split(encoded);
              && |parts| == 6 && parts[0] == [] && parts[1] == [97, 114, 103, 111, 110, 50, 105, 100]
              && ParseVersion(parts[2]) == Some(19)
              && ParseParams(parts[3]) == Some(r.params)
              && 1 <= r.params.memoryKiB <= 0x10_0000 && 1 <= r.params.iterations <= 64 && 1 <= r.params.parallelism <= 16
              && Decoded(parts[4]) == Some(r.salt) && |r.salt| >= 8
              && Decoded(parts[5]) == Some(r.key) && |r.key| == 32
  {
    assert Ascii("argon2id") == [97, 114, 103, 111, 110, 50, 105, 100];
    hide Split, ParseVersion, ParseParams, Decoded;
  }

  // ----- the round trip -----

  lemma {:induction false} DecimalReads(n: nat)
    ensures Number(Decimal(n)) == n
  {
    if n >= 10 {
      DecimalReads(n / 10);
      assert Decimal(n)[..|Decimal(n)| - 1] == Decimal(n / 10);
    }
  }

  lemma {:induction false} RunOfDigits(digits: Text, rest: Text)
    requires forall i :: 0 <= i < |digits| ==> IsDigit(digits[i])
    requires rest == [] || !IsDigit(rest[0])
    ensures DigitRun(digits + rest) == |digits|
  {
    if digits != [] {
      RunOfDigits(digits[1..], rest);
      assert (digits + rest)[1..] == digits[1..] + rest;
    } else {
      assert digits + rest == rest;
    }
  }

  /** A printed number scans back, up to whatever follows that is no digit. */
  lemma ScanReadsDecimal(n: nat, rest: Text, limit: nat)
    requires n < limit && (rest == [] || !IsDigit(rest[0]))
    ensures ScanUnsigned(Decimal(n) + rest, limit) == Some((n, rest))
    ensures n < 0x8000_0000_0000_0000 ==> ScanInt(Decimal(n) + rest) == Some((n, rest))
  {
    var s := Decimal(n) + rest;
    assert IsDigit(s[0]) && SkipSpace(s) == s;
    RunOfDigits(Decimal(n), rest);
    assert s[..|Decimal(n)|] == Decimal(n) && s[|Decimal(n)|..] == rest;
    DecimalReads(n);
  }

  lemma ScanReadsLiteral(literal: Text, rest: Text)
    ensures ScanLiteral(literal + rest, literal) == Some(rest)
  {
    assert (literal + rest)[|literal|..] == rest;
  }

  lemma ParamsRead(p: HashParams)
    requires p.InRange()
    ensures ParseParams(ParamsPart(p)) == Some(p)
  {
    var c := Ascii(",p=") + Decimal(p.parallelism);
    var b := Ascii(",t=") + (Decimal(p.iterations) + c);
    assert ParamsPart(p) == Ascii("m=") + (Decimal(p.memoryKiB) + b);
    ScanReadsLiteral(Ascii("m="), Decimal(p.memoryKiB) + b);
    ScanReadsDecimal(p.memoryKiB, b, 0x1_0000_0000);
    ScanReadsLiteral(Ascii(",t="), Decimal(p.iterations) + c);
    ScanReadsDecimal(p.iterations, c, 0x1_0000_0000);
    ScanReadsLiteral(Ascii(",p="), Decimal(p.parallelism));
    assert Decimal(p.parallelism) == Decimal(p.parallelism) + [];
    ScanReadsDecimal(p.parallelism, [], 0x100);
  }

  lemma VersionReads()
    ensures ParseVersion(VersionPart()) == Some(VERSION)
  {
    ScanReadsLiteral(Ascii("v="), Decimal(VERSION));
    assert Decimal(VERSION) == Decimal(VERSION) + [];
    ScanReadsDecimal(VERSION, [], 0x100);
  }

  lemma PartsHoldNoDollar(p: HashParams)
    ensures DOLLAR !in Ascii("argon2id") && DOLLAR !in VersionPart() && DOLLAR !in ParamsPart(p)
  {
  }

  lemma EncodeSplits(p: HashParams, salt: Text, key: Text)
    ensures Split(Encode(p, salt, key))
            == [[], Ascii("argon2id"), VersionPart(), ParamsPart(p), Encoded(salt), Encoded(key)]
  {
    PartsHoldNoDollar(p);
    EncodedPlain(salt);
    EncodedPlain(key);
    var name, version, params, e5 := Ascii("argon2id"), VersionPart(), ParamsPart(p), Encoded(key);
    var e4 := Encoded(salt) + [DOLLAR] + e5;
    var e3 := params + [DOLLAR] + e4;
    var e2 := version + [DOLLAR] + e3;
    var e1 := name + [DOLLAR] + e2;
    assert Encode(p, salt, key) == [] + [DOLLAR] + e1;
    hide Split, VersionPart, ParamsPart, Encode, Encoded;
    SplitLast(e5);
    SplitPart(Encoded(salt), e5);
    SplitPart(params, e4);
    SplitPart(version, e3);
    SplitPart(name, e2);
    SplitPart([], e1);
  }

  /** `parseHash` undoes `encodeHash`: for every parameters in range, salt of at
      least 8 bytes and 32-byte key. Other salts and keys are refused. */
  lemma ParseInvertsEncode(p: HashParams, salt: Text, key: Text)
    requires p.InRange()
    ensures Parse(Encode(p, salt, key))
            == if |salt| >= MIN_SALT && |key| == KEY_LENGTH then Some(Parsed(p, salt, key)) else None
  {
    EncodeSplits(p, salt, key);
    VersionReads();
    ParamsRead(p);
    DecodesEncoded(salt);
    DecodesEncoded(key);
    hide Split, Encode, ParseVersion, ParseParams, VersionPart, ParamsPart, Decoded, Encoded;
  }

  /** No two hashes print alike. */
  lemma EncodeInjective(p: HashParams, salt: Text, key: Text, q: HashParams, other: Text, key2: Text)
    requires p.InRange() && |salt| >= MIN_SALT && |key| == KEY_LENGTH
    requires q.InRange() && |other| >= MIN_SALT && |key2| == KEY_LENGTH
    requires Encode(p, salt, key) == Encode(q, other, key2)
    ensures p == q && salt == other && key == key2
  {
    ParseInvertsEncode(p, salt, key);
    ParseInvertsEncode(q, other, key2);
  }

  // ----- the policy -----

  datatype HashPolicy = HashPolicy(
    target: HashParams,
    maxMemoryKiB: nat,
    maxIterations: nat,
    maxParallelism: nat,
    budgetKiB: nat,
    concurrency: nat)
  {
    /** `Validate`. */
    predicate Valid() {
      && 7 * 1024 <= target.memoryKiB <= 256 * 1024 && 1 <= target.iterations <= 10 && 1 <= target.parallelism <= 4
      && target.memoryKiB <= maxMemoryKiB <= MAX_MEMORY
      && target.iterations <= maxIterations <= MAX_ITERATIONS
      && target.parallelism <= maxParallelism <= MAX_PARALLELISM
      && target.memoryKiB <= budgetKiB <= MAX_MEMORY
      && 1 <= concurrency <= 32
    }

    /** `validateVerifyParams`. */
    predicate Accepts(p: HashParams) {
      && p.memoryKiB <= maxMemoryKiB && p.memoryKiB <= budgetKiB
      && p.iterations <= maxIterations && p.parallelism <= maxParallelism
    }
  }

  /** `NeedsRehash`. */
  function NeedsRehash(policy: HashPolicy, encoded: Text): bool {
    var parsed := Parse(encoded);
    parsed.Some? && parsed.value.params != policy.target
  }

  /** Whatever is verified fits the memory budget and the three maxima, so no call
      can ask the gate for more than it has; and whatever fits is verified. */
  lemma AcceptsIff(policy: HashPolicy, p: HashParams)
    ensures policy.Accepts(p) <==>
              && (p.memoryKiB <= policy.maxMemoryKiB && p.memoryKiB <= policy.budgetKiB)
              && (p.iterations <= policy.maxIterations && p.parallelism <= policy.maxParallelism)
    ensures policy.Valid() && policy.Accepts(p) ==>
              p.memoryKiB <= 0x10_0000 && p.iterations <= 64 && p.parallelism <= 16
  {
  }

  /** What a valid policy creates it can verify, and need not rehash; a hash of
      other parameters is rehashed, whichever way they differ. */
  lemma NewHashesVerify(policy: HashPolicy, p: HashParams, salt: Text, key: Text)
    requires policy.Valid() && p.InRange() && |salt| == 16 && |key| == KEY_LENGTH
    ensures Parse(Encode(policy.target, salt, key)) == Some(Parsed(policy.target, salt, key))
    ensures policy.Accepts(policy.target) && policy.target.InRange()
    ensures NeedsRehash(policy, Encode(p, salt, key)) <==> p != policy.target
  {
    ParseInvertsEncode(policy.target, salt, key);
    ParseInvertsEncode(p, salt, key);
    hide Parse, Encode;
  }
}
