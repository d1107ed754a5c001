/** Base conversions, hexadecimal text, and the wallet import format of a private key. */
module Codec {
  import opened Bitcoin
  import opened Digits

  type Byte = b: nat | b < 256

  type Digest = d: seq<Byte> | |d| == 32 witness seq(32, i => 0)

  // Uninterpreted: the SHA-256 of a byte sequence.
  const SHA256: seq<Byte> -> Digest

  const UPPER_SYMBOLS := "0123456789ABCDEF"
  const LOWER_SYMBOLS := "0123456789abcdef"
  // Digits and letters without '0', 'I', 'O' and 'l'.
  const BASE58_SYMBOLS := "123456789" + "ABCDEFGH" + "JKLMN" + "PQRSTUVWXYZ" + "abcdefghijk" + "mnopqrstuvwxyz"

  // Bytes, read as base-256 digits.
  function Nats(bytes: seq<Byte>): seq<nat> {
    bytes
  }

  function PowerOf(base: nat, e: nat): (p: nat)
    ensures p == Pow(base, e)
  {
    if e == 0 then 1 else base * PowerOf(base, e - 1)
  }

  // ---- Numbers ----

  /** The number that a non-empty byte sequence stands for; the source traps on an empty one,
      where `ok` is false. */
  method BytesToDecimal(bytes: seq<Byte>) returns (ok: bool, total: nat)
    ensures ok <==> bytes != []
    ensures ok ==> total == Value(256, Nats(bytes))
  {
    total := 0;
    if |bytes| == 0 {
      return false, total;
    }
    var digits := Nats(bytes);
    for i := 0 to |bytes|
      invariant total == Value(256, digits[..i]) * Pow(256, |bytes| - i)
    {
      ValueSplit(256, digits, i);
      total := total + digits[i] * PowerOf(256, |bytes| - i - 1);
    }
    assert digits[..|bytes|] == digits;
    ok := true;
  }

  /** The base-58 digits of a number, most significant first. */
  method DecimalToBase58(decimal: nat) returns (digits: seq<nat>)
    ensures Canonical(58, digits) && Value(58, digits) == decimal
  {
    var buffer: seq<nat> := [];
    var rest: nat := decimal;
    while rest > 0
      invariant AllBelow(58, buffer)
      invariant rest == 0 && buffer != [] ==> buffer[|buffer| - 1] != 0
      invariant rest * Pow(58, |buffer|) + Value(58, Reverse(buffer)) == decimal
      decreases rest
    {
      PushDigit(rest, buffer);
      buffer := buffer + [rest % 58];
      rest := rest / 58;
    }
    digits := Reverse(buffer);
    assert forall d | d in digits :: d in buffer;
    assert digits != [] ==> digits[0] == buffer[|buffer| - 1];
  }

  // Moving the lowest digit of a number to the front of the digits already found.
  lemma {:induction false} PushDigit(rest: nat, buffer: seq<nat>)
    requires 0 < rest
    ensures var longer := buffer + [rest % 58];
            && (rest / 58) * Pow(58, |longer|) + Value(58, Reverse(longer)) == rest * Pow(58, |buffer|) + Value(58, Reverse(buffer))
            && (rest / 58 == 0 ==> rest % 58 != 0)
  {
    var d, q := rest % 58, rest / 58;
    ReverseSnoc(buffer, d);
    ValueCons(58, d, Reverse(buffer));
    Weighted(q, d, Pow(58, |buffer|), rest);
  }

  lemma {:induction false} Weighted(q: nat, d: nat, w: nat, n: nat)
    requires n == q * 58 + d
    ensures q * (58 * w) + d * w == n * w
  {
  }

  lemma {:induction false} ValueCons(base: nat, d: nat, digits: seq<nat>)
    ensures Value(base, [d] + digits) == d * Pow(base, |digits|) + Value(base, digits)
  {
    var longer := [d] + digits;
    if digits == [] {
      assert longer[..0] == [];
    } else {
      var n := |digits| - 1;
      assert longer[..|longer| - 1] == [d] + digits[..n];
      ValueCons(base, d, digits[..n]);
      var w, v := Pow(base, n), Value(base, digits[..n]);
      assert (d * w + v) * base + digits[n] == d * (base * w) + (v * base + digits[n]);
    }
  }

  // ---- Text ----

  // One symbol for each base-58 digit.
  function EncodeBase58(digits: seq<nat>): string
    requires AllBelow(58, digits)
  {
    seq(|digits|, i requires 0 <= i < |digits| => assert digits[i] in digits; BASE58_SYMBOLS[digits[i]])
  }

  // The symbol of a digit, by ranges of consecutive characters.
  function SymbolOf(d: nat): char
    requires d < 58
  {
    if d < 9 then '1' + d as char
    else if d < 17 then 'A' + (d - 9) as char
    else if d < 22 then 'J' + (d - 17) as char
    else if d < 33 then 'P' + (d - 22) as char
    else if d < 44 then 'a' + (d - 33) as char
    else 'm' + (d - 44) as char
  }

  ghost predicate Consecutive(symbols: string, first: char) {
    forall i | 0 <= i < |symbols| :: symbols[i] as int == first as int + i
  }

  lemma {:induction false} TableIsSymbolOf(d: nat)
    requires d < 58
    ensures |BASE58_SYMBOLS| == 58 && BASE58_SYMBOLS[d] == SymbolOf(d)
  {
    assert Consecutive("123456789", '1');
    assert Consecutive("ABCDEFGH", 'A');
    assert Consecutive("JKLMN", 'J');
    assert Consecutive("PQRSTUVWXYZ", 'P');
    assert Consecutive("abcdefghijk", 'a');
    assert Consecutive("mnopqrstuvwxyz", 'm');
  }

  lemma {:induction false} Base58SymbolsDiffer(a: nat, b: nat)
    requires a < b < 58
    ensures BASE58_SYMBOLS[a] != BASE58_SYMBOLS[b]
  {
    TableIsSymbolOf(a);
    TableIsSymbolOf(b);
  }

  // Different digits give different text.
  lemma {:induction false} EncodeBase58Injective(a: seq<nat>, b: seq<nat>)
    requires AllBelow(58, a) && AllBelow(58, b) && EncodeBase58(a) == EncodeBase58(b)
    ensures a == b
  {
    assert |a| == |EncodeBase58(a)| == |b|;
    forall i | 0 <= i < |a| ensures a[i] == b[i] {
      assert EncodeBase58(a)[i] == EncodeBase58(b)[i];
      assert a[i] in a && b[i] in b;
      if a[i] < b[i] {
        Base58SymbolsDiffer(a[i], b[i]);
      } else if b[i] < a[i] {
        Base58SymbolsDiffer(b[i], a[i]);
      }
    }
  }

  // Two hexadecimal symbols for each byte.
  function Encode(bytes: seq<Byte>): string {
    EncodeWith(UPPER_SYMBOLS, bytes)
  }

  function EncodeWith(symbols: string, bytes: seq<Byte>): string
    requires |symbols| == 16
  {
    if bytes == [] then "" else [symbols[bytes[0] / 16], symbols[bytes[0] % 16]] + EncodeWith(symbols, bytes[1..])
  }

  // The value of a hexadecimal symbol of either case.
  function SymbolValue(c: char): Option<nat> {
    if '0' <= c <= '9' then Some((c - '0') as nat)
    else if 'A' <= c <= 'F' then Some((c - 'A') as nat + 10)
    else if 'a' <= c <= 'f' then Some((c - 'a') as nat + 10)
    else None
  }

  predicate AllHex(text: string) {
    forall i | 0 <= i < |text| :: SymbolValue(text[i]).Some?
  }

  function PairValue(text: string, i: nat): Byte
    requires 2 * i + 1 < |text| && AllHex(text)
  {
    SymbolValueBound(text[2 * i]);
    SymbolValueBound(text[2 * i + 1]);
    SymbolValue(text[2 * i]).value * 16 + SymbolValue(text[2 * i + 1]).value
  }

  lemma {:induction false} SymbolValueBound(c: char)
    requires SymbolValue(c).Some?
    ensures SymbolValue(c).value < 16
  {
  }

  /** The bytes that a hexadecimal text stands for: one for each pair of symbols, so that the
      last symbol of an odd text is dropped. `ok` is false where the source traps. */
  method HexStringToBytes(text: string) returns (ok: bool, bytes: seq<Byte>)
    ensures ok <==> AllHex(text)
    ensures ok ==> |bytes| == |text| / 2 && forall i | 0 <= i < |bytes| :: bytes[i] == PairValue(text, i)
  {
    var buffer := new Byte[|text| / 2](i => 0);
    var sum: nat := 0;
    var index := 0;
    while index < |text|
      invariant index <= |text|
      invariant forall i | 0 <= i < index :: SymbolValue(text[i]).Some?
      invariant index % 2 == 0 ==> sum == 0
      invariant index % 2 == 1 ==> sum == SymbolValue(text[index - 1]).value * 16
      invariant AllHex(text[..index])
      invariant forall i | 0 <= i < index / 2 :: buffer[i] == PairValue(text[..index], i)
    {
      var symbol := SymbolValue(text[index]);
      if symbol.None? {
        return false, [];
      }
      SymbolValueBound(text[index]);
      if index % 2 == 0 {
        sum := sum + symbol.value * 16;
      } else {
        SymbolValueBound(text[index - 1]);
        sum := sum + symbol.value;
        buffer[index / 2] := sum;
        sum := 0;
      }
      index := index + 1;
    }
    assert text[..|text|] == text;
    return true, buffer[..];
  }

  // A table in which the n-th symbol has the value n.
  ghost predicate Reads(symbols: string) {
    |symbols| == 16 && forall n | 0 <= n < 16 :: SymbolValue(symbols[n]) == Some(n)
  }

  lemma {:induction false} BothCasesRead()
    ensures Reads(UPPER_SYMBOLS) && Reads(LOWER_SYMBOLS)
  {
    forall n | 0 <= n < 16 ensures SymbolValue(UPPER_SYMBOLS[n]) == Some(n) == SymbolValue(LOWER_SYMBOLS[n]) {
      SymbolsOfNibble(n);
    }
  }

  lemma {:induction false} SymbolsOfNibble(n: nat)
    requires n < 16
    ensures SymbolValue(UPPER_SYMBOLS[n]) == Some(n) == SymbolValue(LOWER_SYMBOLS[n])
  {
  }

  // The accepted characters are exactly the symbols of the two tables.
  lemma {:induction false} AcceptedSymbols(c: char)
    ensures SymbolValue(c).Some? <==> c in UPPER_SYMBOLS || c in LOWER_SYMBOLS
  {
    BothCasesRead();
    if SymbolValue(c).Some? {
      var n := SymbolValue(c).value;
      if 'a' <= c <= 'f' {
        assert LOWER_SYMBOLS[n] == c;
      } else {
        assert UPPER_SYMBOLS[n] == c;
      }
    }
    if c in UPPER_SYMBOLS {
      var n :| 0 <= n < |UPPER_SYMBOLS| && UPPER_SYMBOLS[n] == c;
    }
    if c in LOWER_SYMBOLS {
      var n :| 0 <= n < |LOWER_SYMBOLS| && LOWER_SYMBOLS[n] == c;
    }
  }

  lemma {:induction false} EncodeHead(symbols: string, bytes: seq<Byte>)
    requires Reads(symbols) && bytes != []
    ensures var text := EncodeWith(symbols, bytes);
            && |text| >= 2 && text[2..] == EncodeWith(symbols, bytes[1..])
            && SymbolValue(text[0]) == Some(bytes[0] / 16) && SymbolValue(text[1]) == Some(bytes[0] % 16)
  {
  }

  lemma {:induction false} EncodedIsHex(symbols: string, bytes: seq<Byte>)
    requires Reads(symbols)
    ensures |EncodeWith(symbols, bytes)| == 2 * |bytes| && AllHex(EncodeWith(symbols, bytes))
  {
    if bytes == [] {
    } else {
      EncodeHead(symbols, bytes);
      EncodedIsHex(symbols, bytes[1..]);
      var text := EncodeWith(symbols, bytes);
      forall i | 0 <= i < |text| ensures SymbolValue(text[i]).Some? {
        assert i >= 2 ==> text[i] == text[2..][i - 2];
      }
    }
  }

  lemma {:induction false} PairsReadBack(symbols: string, bytes: seq<Byte>, i: nat)
    requires Reads(symbols) && i < |bytes|
    ensures |EncodeWith(symbols, bytes)| == 2 * |bytes| && AllHex(EncodeWith(symbols, bytes))
    ensures PairValue(EncodeWith(symbols, bytes), i) == bytes[i]
  {
    EncodeHead(symbols, bytes);
    EncodedIsHex(symbols, bytes);
    if i == 0 {
    } else {
      PairsReadBack(symbols, bytes[1..], i - 1);
    }
  }

  // Encoding bytes, in upper or in lower case, and reading the text again gives the bytes.
  lemma {:induction false} HexRoundTrip(bytes: seq<Byte>, i: nat)
    requires i < |bytes|
    ensures |Encode(bytes)| == 2 * |bytes| && AllHex(Encode(bytes)) && PairValue(Encode(bytes), i) == bytes[i]
    ensures var lower := EncodeWith(LOWER_SYMBOLS, bytes);
            |lower| == 2 * |bytes| && AllHex(lower) && PairValue(lower, i) == bytes[i]
  {
    BothCasesRead();
    PairsReadBack(UPPER_SYMBOLS, bytes, i);
    PairsReadBack(LOWER_SYMBOLS, bytes, i);
  }

  // ---- Wallet import format ----

  // The key with its version byte in front and its checksum behind.
  function Payload(key: seq<Byte>): seq<Byte> {
    var versioned := [0x80] + key;
    versioned + SHA256(SHA256(versioned))[..4]
  }

  // The one way to write a number in base 58.
  ghost function Base58Of(n: nat): (digits: seq<nat>)
    ensures Canonical(58, digits) && Value(58, digits) == n
  {
    CanonicalOf(58, n)
  }

  // The rendering of a key.
  ghost function Wif(key: seq<Byte>): string {
    EncodeBase58(Base58Of(Value(256, Nats(Payload(key)))))
  }

  /** Renders a private key. */
  method PrivateKeyToWif(key: seq<Byte>) returns (wif: string)
    ensures wif == Wif(key)
  {
    var versioned: seq<Byte> := [0x80] + key;
    var second := SHA256(SHA256(versioned));
    var checksum: seq<Byte> := [];
    var taken := 0;
    for i := 0 to |second|
      invariant taken == (if i < 4 then i else 4)
      invariant checksum == second[..taken]
    {
      if taken < 4 {
        taken := taken + 1;
        checksum := checksum + [second[i]];
      }
    }
    var payload := versioned + checksum;
    assert payload == Payload(key);
    var _, decimal := BytesToDecimal(payload);
    var digits := DecimalToBase58(decimal);
    CanonicalUnique(58, digits, Base58Of(decimal));
    wif := EncodeBase58(digits);
    var text := Encode(payload);
    var i := 0;
    while i < |text| && text[i] == '0'
      invariant i <= |text| && |wif| == i + |digits| && wif[i..] == EncodeBase58(digits)
      invariant forall j | 0 <= j < i :: text[j] == '0'
    {
      wif := "1" + wif;
      i := i + 1;
    }
    // The text starts with the version byte 0x80, so that no leading '1' is ever added.
    StartsWithEight(payload);
    assert i == 0;
  }

  lemma {:induction false} StartsWithEight(payload: seq<Byte>)
    requires payload != [] && payload[0] == 0x80
    ensures Encode(payload) != [] && Encode(payload)[0] == '8'
  {
    assert 0x80 / 16 == 8;
  }

  // Two keys with the same rendering are the same key, whatever their lengths.
  lemma {:induction false} WifInjective(a: seq<Byte>, b: seq<Byte>)
    requires Wif(a) == Wif(b)
    ensures a == b
  {
    var p, q := Payload(a), Payload(b);
    EncodeBase58Injective(Base58Of(Value(256, Nats(p))), Base58Of(Value(256, Nats(q))));
    assert p[0] == 0x80 == q[0];
    CanonicalUnique(256, Nats(p), Nats(q));
    assert a == p[1..|p| - 4] && b == q[1..|q| - 4];
  }

  // ---- Reading a rendered key ----

  // The position of the first occurrence of a symbol.
  function Position(symbols: string, c: char): Option<nat> {
    if symbols == "" then None
    else if symbols[0] == c then Some(0)
    else match Position(symbols[1..], c)
      case Some(i) => Some(i + 1)
      case None => None
  }

  lemma {:induction false} PositionFound(symbols: string, i: nat)
    requires i < |symbols| && forall j, k | 0 <= j < k < |symbols| :: symbols[j] != symbols[k]
    ensures Position(symbols, symbols[i]) == Some(i)
  {
    if i == 0 {
    } else {
      PositionFound(symbols[1..], i - 1);
    }
  }

  function ReadBase58(text: string): Option<seq<nat>> {
    if text == "" then Some([])
    else
      match (Position(BASE58_SYMBOLS, text[0]), ReadBase58(text[1..]))
      case (Some(d), Some(rest)) => Some([d] + rest)
      case _ => None
  }

  lemma {:induction false} ReadsBase58(digits: seq<nat>)
    requires AllBelow(58, digits)
    ensures ReadBase58(EncodeBase58(digits)) == Some(digits)
  {
    if digits == [] {
    } else {
      var d, rest := digits[0], digits[1..];
      assert forall x | x in rest :: x in digits;
      assert d in digits;
      DigitReads(d);
      ReadsBase58(rest);
      assert EncodeBase58(digits)[1..] == EncodeBase58(rest);
      assert digits == [d] + rest;
    }
  }

  lemma {:induction false} DigitReads(d: nat)
    requires d < 58
    ensures Position(BASE58_SYMBOLS, BASE58_SYMBOLS[d]) == Some(d)
  {
    TableIsSymbolOf(d);
    forall j, k | 0 <= j < k < |BASE58_SYMBOLS| ensures BASE58_SYMBOLS[j] != BASE58_SYMBOLS[k] {
      Base58SymbolsDiffer(j, k);
    }
    PositionFound(BASE58_SYMBOLS, d);
  }

  function AsBytes(digits: seq<nat>): seq<Byte>
    requires AllBelow(256, digits)
  {
    seq<Byte>(|digits|, i requires 0 <= i < |digits| => ByteAt(digits, i))
  }

  function ByteAt(digits: seq<nat>, i: nat): (b: Byte)
    requires AllBelow(256, digits) && i < |digits|
    ensures b == digits[i]
  {
    assert digits[i] in digits;
    digits[i]
  }

  // Reads a rendered key: the text is a number in base 58, whose bytes are the payload.
  ghost function DecodeWif(text: string): Option<seq<Byte>> {
    match ReadBase58(text)
    case None => None
    case Some(digits) => DecodePayload(AsBytes(CanonicalOf(256, Value(58, digits))))
  }

  // The payload is the version byte 0x80, the key, and the first four bytes of the twice hashed
  // bytes before them.
  function DecodePayload(payload: seq<Byte>): Option<seq<Byte>> {
    var n := |payload|;
    if n < 5 || payload[0] != 0x80 || SHA256(SHA256(payload[..n - 4]))[..4] != payload[n - 4..] then None
    else Some(payload[1..n - 4])
  }

  lemma {:induction false} PayloadReads(key: seq<Byte>)
    ensures DecodePayload(Payload(key)) == Some(key)
  {
    var versioned: seq<Byte> := [0x80] + key;
    var payload := Payload(key);
    assert payload[..|payload| - 4] == versioned;
    assert payload[1..|payload| - 4] == key;
  }

  lemma {:induction false} NumberReads(bytes: seq<Byte>)
    requires bytes != [] && bytes[0] != 0
    ensures AsBytes(CanonicalOf(256, Value(256, Nats(bytes)))) == bytes
  {
    CanonicalUnique(256, Nats(bytes), CanonicalOf(256, Value(256, Nats(bytes))));
  }

  // A rendered key has the right version byte and checksum, and reads as the key.
  lemma {:induction false} WifReadsBack(key: seq<Byte>)
    ensures DecodeWif(Wif(key)) == Some(key)
  {
    var payload := Payload(key);
    assert payload[0] == 0x80;
    ReadsBase58(Base58Of(Value(256, Nats(payload))));
    NumberReads(payload);
    PayloadReads(key);
  }
}
