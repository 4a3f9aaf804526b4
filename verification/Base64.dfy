/** Base64 in the sandbox worker (apps/sandbox-worker/src/index.ts): encoding as in
    section 4 of RFC 4648, and the size computed from encoded text alone. */
module Base64 {
  import opened Wrappers

  type Byte = n: nat | n < 256

  predicate Symbol(c: char) {
    'A' <= c <= 'Z' || 'a' <= c <= 'z' || '0' <= c <= '9' || c == '+' || c == '/'
  }

  function Encode6(n: nat): (c: char)
    requires n < 64
    ensures Symbol(c)
  {
    if n < 26 then 'A' + n as char
    else if n < 52 then 'a' + (n - 26) as char
    else if n < 62 then '0' + (n - 52) as char
    else if n == 62 then '+' else '/'
  }

  function Decode6(c: char): (n: nat)
    requires Symbol(c)
    ensures n < 64
  {
    if 'A' <= c <= 'Z' then (c - 'A') as nat
    else if 'a' <= c <= 'z' then (c - 'a') as nat + 26
    else if '0' <= c <= '9' then (c - '0') as nat + 52
    else if c == '+' then 62 else 63
  }

  /** The table of section 4 of RFC 4648. */
  const UPPER := "ABCDEFGHIJKLMNOPQRSTUVWXYZ"
  const LOWER := "abcdefghijklmnopqrstuvwxyz"
  const REST := "0123456789+/"
  const ALPHABET := UPPER + LOWER + REST

  lemma SymbolRoundTrip(n: nat)
    requires n < 64
    ensures Decode6(Encode6(n)) == n && Encode6(n) != '='
  {
  }

  lemma UpperIs(c: char)
    ensures 'A' <= c <= 'Z' <==> c in UPPER
    ensures 'A' <= c <= 'Z' ==> UPPER[(c - 'A') as nat] == c
  {
  }

  lemma LowerIs(c: char)
    ensures 'a' <= c <= 'z' <==> c in LOWER
    ensures 'a' <= c <= 'z' ==> LOWER[(c - 'a') as nat] == c
  {
  }

  lemma RestIs(c: char)
    ensures '0' <= c <= '9' || c == '+' || c == '/' <==> c in REST
    ensures '0' <= c <= '9' ==> REST[(c - '0') as nat] == c
  {
  }

  /** A symbol is a character of the table, and decodes to its place there. */
  lemma DecodingIsByTable(c: char)
    ensures Symbol(c) <==> c in ALPHABET
    ensures Symbol(c) ==> ALPHABET[Decode6(c)] == c
  {
    UpperIs(c);
    LowerIs(c);
    RestIs(c);
    TableParts(c);
  }

  lemma TableParts(c: char)
    ensures c in ALPHABET <==> c in UPPER || c in LOWER || c in REST
    ensures forall i :: 0 <= i < 26 ==> ALPHABET[i] == UPPER[i] && ALPHABET[26 + i] == LOWER[i]
    ensures forall i :: 0 <= i < 12 ==> ALPHABET[52 + i] == REST[i]
  {
  }

  lemma EncodingIsByTable(n: nat)
    requires n < 64
    ensures Encode6(n) == ALPHABET[n]
  {
    hide Encode6, Decode6, Symbol;
    SymbolRoundTrip(n);
    DecodingIsByTable(Encode6(n));
  }

  /** `btoa`: three bytes to four symbols, the last group padded with `=`. */
  function Encode(bytes: seq<Byte>): string {
    if bytes == [] then ""
    else if |bytes| == 1 then
      [Encode6(bytes[0] / 4), Encode6(bytes[0] % 4 * 16), '=', '=']
    else if |bytes| == 2 then
      [Encode6(bytes[0] / 4), Encode6(bytes[0] % 4 * 16 + bytes[1] / 16), Encode6(bytes[1] % 16 * 4), '=']
    else
      Group(bytes[0], bytes[1], bytes[2]) + Encode(bytes[3..])
  }

  function Group(x: Byte, y: Byte, z: Byte): (symbols: string)
    ensures |symbols| == 4 && forall i :: 0 <= i < 4 ==> Symbol(symbols[i])
  {
    [Encode6(x / 4), Encode6(x % 4 * 16 + y / 16), Encode6(y % 16 * 4 + z / 64), Encode6(z % 64)]
  }

  /** `btoa` proper takes a string of character codes and refuses any above 255. */
  function Btoa(binary: string): Option<string> {
    if forall i :: 0 <= i < |binary| ==> binary[i] < '\U{100}' then
      Some(Encode(seq(|binary|, i requires 0 <= i < |binary| => if binary[i] < '\U{100}' then binary[i] as int else 0)))
    else None
  }

  /** `bytesToBase64`: one character per byte, then `btoa`, which never refuses. */
  method BytesToBase64(value: seq<Byte>) returns (encoded: Option<string>)
    ensures encoded == Some(Encode(value))
  {
    var binary := "";
    for k := 0 to |value|
      invariant |binary| == k
      invariant forall i :: 0 <= i < k ==> binary[i] < '\U{100}' && binary[i] as int == value[i]
    {
      binary := binary + [value[k] as char];
    }
    encoded := Btoa(binary);
    assert seq(|binary|, i requires 0 <= i < |binary| => if binary[i] < '\U{100}' then binary[i] as int else 0)
        == value;
  }

  // ----- the size

  /** Trailing `=` signs, two at most. */
  function Padding(text: string): (p: nat)
    ensures p <= |text|
  {
    if |text| >= 2 && text[|text| - 2..] == "==" then 2
    else if |text| >= 1 && text[|text| - 1] == '=' then 1
    else 0
  }

  /** `/^[A-Za-z0-9+/]*={0,2}$/` and a length divisible by 4. */
  predicate WellFormed(text: string) {
    && (forall i :: 0 <= i < |text| - Padding(text) ==> Symbol(text[i]))
    && |text| % 4 == 0
  }

  /** `base64DecodedSize`; None where it throws. */
  function DecodedSize(text: string): Option<int> {
    if !WellFormed(text) then None else Some(|text| / 4 * 3 - Padding(text))
  }

  /** Decoding, as in section 4 of RFC 4648; unused bits are ignored. */
  function Decode(text: string): Option<seq<Byte>> {
    if text == [] then Some([])
    else if |text| < 4 || !Symbol(text[0]) || !Symbol(text[1]) then None
    else
      var a, b := Decode6(text[0]), Decode6(text[1]);
      if |text| == 4 && text[2] == '=' && text[3] == '=' then Some([a * 4 + b / 16])
      else if !Symbol(text[2]) then None
      else
        var c := Decode6(text[2]);
        if |text| == 4 && text[3] == '=' then Some([a * 4 + b / 16, b % 16 * 16 + c / 4])
        else if !Symbol(text[3]) then None
        else
          var rest := Decode(text[4..]);
          if rest.None? then None
          else Some([a * 4 + b / 16, b % 16 * 16 + c / 4, c % 4 * 64 + Decode6(text[3])] + rest.value)
  }

  lemma OneByte(x: Byte)
    ensures Decode([Encode6(x / 4), Encode6(x % 4 * 16), '=', '=']) == Some([x])
  {
    SymbolRoundTrip(x / 4);
    SymbolRoundTrip(x % 4 * 16);
    assert x / 4 * 4 + x % 4 * 16 / 16 == x;
  }

  lemma TwoBytes(x: Byte, y: Byte)
    ensures Decode([Encode6(x / 4), Encode6(x % 4 * 16 + y / 16), Encode6(y % 16 * 4), '=']) == Some([x, y])
  {
    var text := [Encode6(x / 4), Encode6(x % 4 * 16 + y / 16), Encode6(y % 16 * 4), '='];
    SymbolRoundTrip(x / 4);
    SymbolRoundTrip(x % 4 * 16 + y / 16);
    SymbolRoundTrip(y % 16 * 4);
    assert text[2] != '=' && text[3] == '=';
    assert x / 4 * 4 + (x % 4 * 16 + y / 16) / 16 == x;
    assert (x % 4 * 16 + y / 16) % 16 * 16 + y % 16 * 4 / 4 == y;
  }

  lemma ThreeBytes(x: Byte, y: Byte, z: Byte, rest: string)
    requires Decode(rest).Some?
    ensures Decode(Group(x, y, z) + rest) == Some([x, y, z] + Decode(rest).value)
  {
    hide Encode6, Decode6, Decode, Symbol;
    var text := Group(x, y, z) + rest;
    SymbolRoundTrip(x / 4);
    SymbolRoundTrip(x % 4 * 16 + y / 16);
    SymbolRoundTrip(y % 16 * 4 + z / 64);
    SymbolRoundTrip(z % 64);
    assert text[4..] == rest;
    FullGroup(text);
    TwoDigits(x, 4, 16, y / 16);
    TwoDigits(y, 16, 4, z / 64);
  }

  /** Four symbols are three bytes. */
  lemma FullGroup(text: string)
    requires |text| >= 4 && Symbol(text[0]) && Symbol(text[1]) && Symbol(text[2]) && Symbol(text[3])
    requires Decode(text[4..]).Some?
    ensures var a, b, c, d := Decode6(text[0]), Decode6(text[1]), Decode6(text[2]), Decode6(text[3]);
            && a * 4 + b / 16 < 256 && b % 16 * 16 + c / 4 < 256 && c % 4 * 64 + d < 256
            && Decode(text) == Some([a * 4 + b / 16, b % 16 * 16 + c / 4, c % 4 * 64 + d] + Decode(text[4..]).value)
  {
    hide Decode6;
  }

  /** Taking a byte apart at `low` and putting it together again around a digit `d`
      of the next byte. */
  lemma TwoDigits(x: Byte, low: nat, high: nat, d: nat)
    requires (low, high) in {(4, 16), (16, 4)} && d < high
    ensures x / low * low + (x % low * high + d) / high == x
    ensures (x % low * high + d) % high == d
  {
    if low == 4 {
      assert (x % 4 * 16 + d) / 16 == x % 4;
    } else {
      assert (x % 16 * 4 + d) / 4 == x % 16;
    }
  }

  /** Decoding an encoding gives the bytes back. */
  lemma {:induction false} Base64RoundTrip(bytes: seq<Byte>)
    ensures Decode(Encode(bytes)) == Some(bytes)
  {
    hide Decode;
    if |bytes| >= 3 {
      Base64RoundTrip(bytes[3..]);
      ThreeBytes(bytes[0], bytes[1], bytes[2], Encode(bytes[3..]));
      assert bytes == [bytes[0], bytes[1], bytes[2]] + bytes[3..];
    } else if |bytes| == 2 {
      TwoBytes(bytes[0], bytes[1]);
      assert bytes == [bytes[0], bytes[1]];
    } else if |bytes| == 1 {
      OneByte(bytes[0]);
      assert bytes == [bytes[0]];
    } else {
      NoBytes();
      assert bytes == [];
    }
  }

  lemma NoBytes()
    ensures Decode("") == Some([])
  {
  }

  function Pads(n: nat): nat {
    if n % 3 == 1 then 2 else if n % 3 == 2 then 1 else 0
  }

  lemma PadsRepeat(n: nat)
    ensures Pads(0) == 0 && Pads(1) == 2 && Pads(2) == 1
    ensures n >= 3 ==> Pads(n) == Pads(n - 3)
  {
  }

  lemma {:induction false} EncodedLength(bytes: seq<Byte>)
    ensures 3 * |Encode(bytes)| == 4 * (|bytes| + Pads(|bytes|))
  {
    hide Encode6, Group, Pads;
    PadsRepeat(|bytes|);
    if |bytes| >= 3 {
      EncodedLength(bytes[3..]);
    }
  }

  /** All symbols but for `p` padding signs at the end. */
  predicate PaddedBy(text: string, p: nat) {
    p <= |text| && forall i :: 0 <= i < |text| ==> if i < |text| - p then Symbol(text[i]) else text[i] == '='
  }

  lemma PaddedInFront(group: string, text: string, p: nat)
    requires PaddedBy(group, 0) && PaddedBy(text, p)
    ensures PaddedBy(group + text, p)
  {
  }

  /** The last places of an encoding, and no others, are padding. */
  lemma {:induction false} EncodingPadded(bytes: seq<Byte>)
    ensures PaddedBy(Encode(bytes), Pads(|bytes|))
  {
    hide Encode6, Symbol, Group, Pads;
    PadsRepeat(|bytes|);
    if |bytes| >= 3 {
      EncodingPadded(bytes[3..]);
      PaddedInFront(Group(bytes[0], bytes[1], bytes[2]), Encode(bytes[3..]), Pads(|bytes| - 3));
    }
  }

  /** For every byte sequence the computed size of its encoding is its length. */
  lemma SizeOfEncoding(bytes: seq<Byte>)
    ensures DecodedSize(Encode(bytes)) == Some(|bytes|)
  {
    hide Encode, PaddedBy, WellFormed, Padding;
    EncodedLength(bytes);
    EncodingPadded(bytes);
    SizeArithmetic(|bytes|, |Encode(bytes)|);
    PaddedIsWellFormed(Encode(bytes), Pads(|bytes|));
  }

  lemma PaddedIsWellFormed(text: string, p: nat)
    requires PaddedBy(text, p) && p <= 2 && |text| % 4 == 0
    ensures WellFormed(text) && Padding(text) == p
  {
    if |text| >= 2 {
      assert text[|text| - 2..] == [text[|text| - 2], text[|text| - 1]];
    }
  }

  lemma SizeArithmetic(n: nat, length: nat)
    requires 3 * length == 4 * (n + Pads(n))
    ensures length % 4 == 0 && length / 4 * 3 - Pads(n) == n
  {
    var k := (n + Pads(n)) / 3;
    assert 3 * k == n + Pads(n);
    assert length == 4 * k;
  }

  /** What follows the first of several groups. */
  lemma TailIsWellFormed(text: string)
    requires WellFormed(text) && |text| > 4
    ensures WellFormed(text[4..]) && Padding(text[4..]) == Padding(text)
    ensures Symbol(text[0]) && Symbol(text[1]) && Symbol(text[2]) && Symbol(text[3])
  {
    hide Symbol;
    var rest := text[4..];
    assert |rest| >= 4;
    assert text[|text| - 2..] == rest[|rest| - 2..] && text[|text| - 1] == rest[|rest| - 1];
    assert forall i :: 0 <= i < |rest| ==> rest[i] == text[i + 4];
  }

  /** A single group. */
  lemma GroupDecodes(text: string)
    requires WellFormed(text) && |text| == 4
    ensures Decode(text).Some? && |Decode(text).value| == 3 - Padding(text)
  {
    hide Decode6;
    assert Padding(text) == 2 ==> text[2..] == "==" && text[2] == text[2..][0] && text[3] == text[2..][1];
    assert Padding(text) == 0 ==> text[4..] == "" && Decode("") == Some([]);
  }

  /** And whatever text the size check accepts decodes, to that many bytes. */
  lemma {:induction false} SizeOfDecoding(text: string)
    ensures DecodedSize(text).Some? ==> Decode(text).Some? && |Decode(text).value| == DecodedSize(text).value
    decreases |text|
  {
    hide Decode6, Symbol, Padding;
    if WellFormed(text) && |text| > 4 {
      TailIsWellFormed(text);
      SizeOfDecoding(text[4..]);
    } else if WellFormed(text) && text != [] {
      GroupDecodes(text);
    }
  }
}
