/** Printing and parsing of Ethereum hex strings (`impl_hex_string!`), with digits as in section 8 of RFC 4648. */
module HexCodec {
  import opened Common

  /** A wrapped byte, an array of fixed length, or a vector. */
  datatype Kind = HexByte | Fixed(length: nat) | Variable

  function DigitOf(n: int): char
    requires 0 <= n < 16
  {
    if n < 10 then ('0' as int + n) as char else ('a' as int + n - 10) as char
  }

  function ValueOf(c: char): (r: Option<nat>)
    ensures r.Some? ==> r.value < 16
  {
    if '0' <= c <= '9' then Some(c as int - '0' as int)
    else if 'a' <= c <= 'f' then Some(c as int - 'a' as int + 10)
    else if 'A' <= c <= 'F' then Some(c as int - 'A' as int + 10)
    else None
  }

  function LowerDigit(c: char): char {
    if 'A' <= c <= 'F' then (c as int - 'A' as int + 'a' as int) as char else c
  }

  function Lower(s: string): (r: string)
    ensures |r| == |s|
  {
    MapSeq(LowerDigit, s)
  }

  predicate IsHexDigit(c: char) { '0' <= c <= '9' || 'a' <= c <= 'f' || 'A' <= c <= 'F' }

  ghost predicate AllDigits(s: string) { forall i :: 0 <= i < |s| ==> IsHexDigit(s[i]) }

  /** `hex::encode`. */
  function Encode(bytes: Bytes): (r: string)
    ensures |r| == 2 * |bytes|
  {
    if bytes == [] then [] else [DigitOf(bytes[0] / 16), DigitOf(bytes[0] % 16)] + Encode(bytes[1..])
  }

  /** `hex::decode`: an even number of digits, of either case. */
  function Decode(s: string): Option<Bytes> {
    if s == [] then Some([])
    else if |s| == 1 || ValueOf(s[0]).None? || ValueOf(s[1]).None? then None
    else
      match Decode(s[2..])
      case None => None
      case Some(rest) => Some([16 * ValueOf(s[0]).value + ValueOf(s[1]).value] + rest)
  }

  /** `FromHex` of each kind; a byte may be given by a single digit. */
  function FromHex(kind: Kind, s: string): Option<Bytes> {
    match kind
    case Variable => Decode(s)
    case Fixed(n) => DecodeExactly(n, s)
    case HexByte => DecodeExactly(1, if |s| == 1 then "0" + s else s)
  }

  function DecodeExactly(n: nat, s: string): Option<Bytes> {
    match Decode(s)
    case Some(b) => if |b| == n then Some(b) else None
    case None => None
  }

  /** `Display`. */
  function Print(bytes: Bytes): string { "0x" + Encode(bytes) }

  datatype ParseError = MissingPrefix | InvalidHex

  /** `FromStr`. */
  function Parse(kind: Kind, s: string): Result<Bytes, ParseError> {
    if !("0x" <= s) then Err(MissingPrefix)
    else
      match FromHex(kind, s[2..])
      case Some(b) => Ok(b)
      case None => Err(InvalidHex)
  }

  predicate Fits(kind: Kind, length: nat) {
    match kind
    case HexByte => length == 1
    case Fixed(n) => length == n
    case Variable => true
  }

  /** Each byte is two digits, the high half first: its value written in base 16, in lower case. */
  lemma {:induction false} EncodeAt(bytes: Bytes, i: nat)
    requires i < |bytes|
    ensures Encode(bytes)[2 * i] == "0123456789abcdef"[bytes[i] / 16]
    ensures Encode(bytes)[2 * i + 1] == "0123456789abcdef"[bytes[i] % 16]
  {
    if i == 0 {
      DigitOfTable(bytes[0] / 16);
      DigitOfTable(bytes[0] % 16);
    } else {
      EncodeAt(bytes[1..], i - 1);
    }
  }

  lemma DigitOfTable(n: nat)
    requires n < 16
    ensures DigitOf(n) == "0123456789abcdef"[n]
  {
  }

  lemma {:induction false} DecodeEncode(bytes: Bytes)
    ensures Decode(Encode(bytes)) == Some(bytes)
  {
    if bytes != [] {
      var high, low := bytes[0] / 16, bytes[0] % 16;
      DecodeEncode(bytes[1..]);
      DigitValue(high);
      DigitValue(low);
      assert 16 * high + low == bytes[0];
      assert Encode(bytes) == [DigitOf(high), DigitOf(low)] + Encode(bytes[1..]);
      assert Encode(bytes)[2..] == Encode(bytes[1..]);
      assert bytes == [bytes[0]] + bytes[1..];
    }
  }

  lemma DigitValue(n: int)
    requires 0 <= n < 16
    ensures ValueOf(DigitOf(n)) == Some(n)
  {
  }

  lemma DigitOfValue(c: char)
    requires ValueOf(c).Some?
    ensures DigitOf(ValueOf(c).value) == LowerDigit(c)
  {
  }

  /** Decoding accepts exactly the strings of an even number of hex digits, and halves their length. */
  lemma {:induction false} DecodeAccepts(s: string)
    ensures Decode(s).Some? <==> |s| % 2 == 0 && AllDigits(s)
    ensures Decode(s).Some? ==> |s| == 2 * |Decode(s).value|
  {
    if |s| >= 2 {
      DecodeAccepts(s[2..]);
      AllDigitsPair(s);
      assert |s| % 2 == |s[2..]| % 2;
    }
  }

  lemma AllDigitsPair(s: string)
    requires |s| >= 2
    ensures AllDigits(s) <==> ValueOf(s[0]).Some? && ValueOf(s[1]).Some? && AllDigits(s[2..])
  {
    assert forall i :: 2 <= i < |s| ==> s[i] == s[2..][i - 2];
  }

  lemma {:induction false} EncodeDecode(s: string)
    requires Decode(s).Some?
    ensures Encode(Decode(s).value) == Lower(s)
  {
    if s != [] {
      var high, low, rest := ValueOf(s[0]).value, ValueOf(s[1]).value, Decode(s[2..]).value;
      EncodeDecode(s[2..]);
      DigitOfValue(s[0]);
      DigitOfValue(s[1]);
      assert Decode(s).value == [16 * high + low] + rest;
      EncodeCons(high, low, rest);
      LowerPair(s);
    }
  }

  lemma EncodeCons(high: nat, low: nat, rest: Bytes)
    requires high < 16 && low < 16
    ensures Encode([16 * high + low] + rest) == [DigitOf(high), DigitOf(low)] + Encode(rest)
  {
    var bytes: Bytes := [16 * high + low] + rest;
    assert bytes[1..] == rest;
    assert (16 * high + low) / 16 == high && (16 * high + low) % 16 == low;
  }

  lemma LowerPair(s: string)
    requires |s| >= 2
    ensures Lower(s) == [LowerDigit(s[0]), LowerDigit(s[1])] + Lower(s[2..])
  {
    var rest := s[2..];
    var pair := [LowerDigit(s[0]), LowerDigit(s[1])];
    forall i | 2 <= i < |s| ensures Lower(s)[i] == (pair + Lower(rest))[i] {
      assert s[i] == rest[i - 2];
    }
  }

  /** What is printed: "0x", then each byte's two digits. */
  lemma PrintExactly(bytes: Bytes, i: nat)
    requires i < |bytes|
    ensures |Print(bytes)| == 2 + 2 * |bytes| && "0x" <= Print(bytes)
    ensures Print(bytes)[2 + 2 * i] == "0123456789abcdef"[bytes[i] / 16]
    ensures Print(bytes)[3 + 2 * i] == "0123456789abcdef"[bytes[i] % 16]
  {
    EncodeAt(bytes, i);
  }

  /** A missing prefix is told apart from digits that do not fit. */
  lemma ParseErrorsExactly(kind: Kind, s: string)
    requires Parse(kind, s).Err?
    ensures Parse(kind, s).error == (if "0x" <= s then InvalidHex else MissingPrefix)
  {
  }

  /** Every value of every kind parses back from its own print. */
  lemma ParsePrint(kind: Kind, bytes: Bytes)
    requires Fits(kind, |bytes|)
    ensures Parse(kind, Print(bytes)) == Ok(bytes)
  {
    DecodeEncode(bytes);
    assert Print(bytes)[2..] == Encode(bytes);
  }

  /** The digits a string is read as: a lone digit of a byte is padded. */
  function Digits(kind: Kind, s: string): string
    requires "0x" <= s
  {
    if kind.HexByte? && |s| == 3 then "0" + s[2..] else s[2..]
  }

  /** Parsing accepts exactly "0x" and the right number of hex digits. */
  lemma ParseAcceptsIff(kind: Kind, s: string)
    ensures Parse(kind, s).Ok?
       <==> "0x" <= s && AllDigits(s[2..])
            && match kind
               case HexByte => |s| == 3 || |s| == 4
               case Fixed(n) => |s| == 2 + 2 * n
               case Variable => |s| % 2 == 0
  {
    if "0x" <= s {
      var d := Digits(kind, s);
      DecodeAccepts(d);
      if kind.HexByte? && |s| == 3 {
        assert d[0] == '0' && d[1] == s[2..][0];
      }
    }
  }

  /** Printing what was parsed gives the input with its digits in lower case, a lone digit of a byte padded. */
  lemma PrintParse(kind: Kind, s: string)
    requires Parse(kind, s).Ok?
    ensures Print(Parse(kind, s).value) == "0x" + Lower(Digits(kind, s))
    ensures Fits(kind, |Parse(kind, s).value|)
  {
    EncodeDecode(Digits(kind, s));
  }

  /** Two accepted strings denote the same value exactly when they agree up to the case and padding of digits. */
  lemma SameValueIff(kind: Kind, s: string, t: string)
    requires Parse(kind, s).Ok? && Parse(kind, t).Ok?
    ensures Parse(kind, s) == Parse(kind, t) <==> Lower(Digits(kind, s)) == Lower(Digits(kind, t))
  {
    PrintParse(kind, s);
    PrintParse(kind, t);
    ParsePrint(kind, Parse(kind, s).value);
    ParsePrint(kind, Parse(kind, t).value);
  }
}
