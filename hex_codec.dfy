/**
 * The transport encoding of the command relay (app/main/events.py, lines 51 and 55).
 *
 * A reply is sent as `str(binascii.hexlify(reply))`, that is the text `b'<hex>'`
 * with two lower-case hex digits per byte. A command arrives in the same form and
 * is decoded by dropping its first two characters and its last one (`[2:-1]`)
 * and passing the rest to `binascii.unhexlify`, which also accepts upper-case
 * digits and rejects, in this order, non-ASCII text, an odd length and a
 * non-hex digit.
 */
module HexCodec {
  import opened Common

  /** The errors `binascii.unhexlify` raises on text, with the texts they print as. */
  datatype DecodeError = NonAscii | OddLength | NonHexDigit
  {
    function Text(): string
    {
      match this
      case NonAscii => "string argument should contain only ASCII characters"
      case OddLength => "Odd-length string"
      case NonHexDigit => "Non-hexadecimal digit found"
    }
  }

  /** The lower-case hex digit for a nibble. */
  function HexDigit(n: nat): (c: char)
    requires n < 16
    ensures DigitValue(c) == Some(n)
    ensures '0' <= c <= '9' || 'a' <= c <= 'f'
  {
    if n < 10 then ('0' as int + n) as char else ('a' as int + n - 10) as char
  }

  /** The value of a hex digit of either case; `None` for any other character. */
  function DigitValue(c: char): (r: Option<nat>)
    ensures r.Some? ==> r.value < 16
  {
    if '0' <= c <= '9' then Some(c as nat - '0' as nat)
    else if 'a' <= c <= 'f' then Some(c as nat - 'a' as nat + 10)
    else if 'A' <= c <= 'F' then Some(c as nat - 'A' as nat + 10)
    else None
  }

  /** `binascii.hexlify`, read as text: high nibble first, lower-case digits. */
  function Hexlify(b: Bytes): (s: string)
    ensures |s| == 2 * |b|
    ensures forall i :: 0 <= i < |s| ==> DigitValue(s[i]).Some? && s[i] as int < 128
    ensures forall i :: 0 <= i < |s| ==> '0' <= s[i] <= '9' || 'a' <= s[i] <= 'f'
    ensures forall k :: 0 <= k < |b| ==>
              DigitValue(s[2 * k]) == Some(b[k] as nat / 16) && DigitValue(s[2 * k + 1]) == Some(b[k] as nat % 16)
  {
    if b == [] then ""
    else [HexDigit(b[0] as nat / 16), HexDigit(b[0] as nat % 16)] + Hexlify(b[1..])
  }

  predicate IsAscii(s: string)
  {
    forall i :: 0 <= i < |s| ==> s[i] as int < 128
  }

  predicate AllHexDigits(s: string)
  {
    forall i :: 0 <= i < |s| ==> DigitValue(s[i]).Some?
  }

  /** The pairs of digits of an even-length text, decoded left to right. */
  function DecodePairs(s: string): Result<Bytes, DecodeError>
    requires |s| % 2 == 0
    decreases |s|
  {
    if s == [] then Ok([])
    else if DigitValue(s[0]).None? || DigitValue(s[1]).None? then Err(NonHexDigit)
    else
      var byte := (DigitValue(s[0]).value * 16 + DigitValue(s[1]).value) as byte;
      match DecodePairs(s[2..])
      case Ok(rest) => Ok([byte] + rest)
      case Err(e) => Err(e)
  }

  /** `binascii.unhexlify` applied to a str. */
  function Unhexlify(s: string): Result<Bytes, DecodeError>
  {
    if !IsAscii(s) then Err(NonAscii)
    else if |s| % 2 == 1 then Err(OddLength)
    else DecodePairs(s)
  }

  /** Python's `t[2:-1]`: the text without its first two characters and its last
      one, or the empty text when `t` has fewer than three characters. */
  function StripTransport(t: string): string
  {
    if |t| >= 3 then t[2..|t| - 1] else ""
  }

  /** `str(binascii.hexlify(b))`. */
  function TransportEncode(b: Bytes): string
  {
    "b'" + Hexlify(b) + "'"
  }

  /** `binascii.unhexlify(t[2:-1])`. */
  function TransportDecode(t: string): Result<Bytes, DecodeError>
  {
    Unhexlify(StripTransport(t))
  }

  /** The lower-case form of a hex digit; other characters are kept. */
  function LowerDigit(c: char): char
  {
    if 'A' <= c <= 'F' then (c as int - 'A' as int + 'a' as int) as char else c
  }

  function LowerDigits(s: string): (r: string)
    ensures |r| == |s|
    ensures forall i :: 0 <= i < |s| ==> r[i] == LowerDigit(s[i])
  {
    seq(|s|, i requires 0 <= i < |s| => LowerDigit(s[i]))
  }

  // ---------------------------------------------------------------------------
  // Lemmas
  // ---------------------------------------------------------------------------

  lemma {:induction false} DecodePairsHexlify(b: Bytes)
    ensures DecodePairs(Hexlify(b)) == Ok(b)
  {
    if b != [] {
      var s := Hexlify(b);
      var hi, lo := b[0] as nat / 16, b[0] as nat % 16;
      assert s[0] == HexDigit(hi) && s[1] == HexDigit(lo);
      assert s[2..] == Hexlify(b[1..]);
      DecodePairsHexlify(b[1..]);
      assert (hi * 16 + lo) as byte == b[0];
      assert [b[0]] + b[1..] == b;
    }
  }

  /** Decoding a hexlified byte string gives the byte string back. */
  lemma UnhexlifyHexlify(b: Bytes)
    ensures Unhexlify(Hexlify(b)) == Ok(b)
  {
    var s := Hexlify(b);
    assert IsAscii(s);
    assert |s| % 2 == 0 by { assert |s| == |b| + |b|; }
    DecodePairsHexlify(b);
  }

  /** The transport round trip: decoding the encoded reply gives the reply back. */
  lemma TransportRoundTrip(b: Bytes)
    ensures TransportDecode(TransportEncode(b)) == Ok(b)
  {
    var t := TransportEncode(b);
    assert StripTransport(t) == Hexlify(b) by {
      assert |t| == 2 * |b| + 3;
      assert t[2..|t| - 1] == Hexlify(b);
    }
    UnhexlifyHexlify(b);
  }

  lemma {:induction false} DecodePairsSpec(s: string)
    requires |s| % 2 == 0
    ensures DecodePairs(s).Ok? <==> AllHexDigits(s)
    ensures DecodePairs(s).Err? ==> DecodePairs(s).error == NonHexDigit
    ensures DecodePairs(s).Ok? ==> Hexlify(DecodePairs(s).value) == LowerDigits(s)
    decreases |s|
  {
    if s != [] {
      DecodePairsSpec(s[2..]);
      assert AllHexDigits(s) <==> DigitValue(s[0]).Some? && DigitValue(s[1]).Some? && AllHexDigits(s[2..]) by {
        if DigitValue(s[0]).Some? && DigitValue(s[1]).Some? && AllHexDigits(s[2..]) {
          forall i | 0 <= i < |s| ensures DigitValue(s[i]).Some? {
            if i >= 2 { assert s[i] == s[2..][i - 2]; }
          }
        }
        if AllHexDigits(s) {
          forall i | 0 <= i < |s| - 2 ensures DigitValue(s[2..][i]).Some? {
            assert s[2..][i] == s[i + 2];
          }
        }
      }
      if DecodePairs(s).Ok? {
        var hi, lo := DigitValue(s[0]).value, DigitValue(s[1]).value;
        var byte := (hi * 16 + lo) as byte;
        var rest := DecodePairs(s[2..]).value;
        assert DecodePairs(s).value == [byte] + rest;
        assert byte as nat / 16 == hi && byte as nat % 16 == lo;
        assert HexDigit(hi) == LowerDigit(s[0]) by { DigitOfValue(s[0]); }
        assert HexDigit(lo) == LowerDigit(s[1]) by { DigitOfValue(s[1]); }
        assert ([byte] + rest)[1..] == rest;
        assert LowerDigits(s) == [LowerDigit(s[0]), LowerDigit(s[1])] + LowerDigits(s[2..]);
      }
    }
  }

  /** The digit written for a digit's value is that digit in lower case. */
  lemma DigitOfValue(c: char)
    requires DigitValue(c).Some?
    ensures HexDigit(DigitValue(c).value) == LowerDigit(c)
  {
  }

  /** `unhexlify` accepts exactly the ASCII texts of even length made of hex digits
      of either case, and otherwise names the first check that fails; whatever it
      accepts, hexlifying the result gives the text back in lower case. */
  lemma UnhexlifySpec(s: string)
    ensures Unhexlify(s).Ok? <==> IsAscii(s) && |s| % 2 == 0 && AllHexDigits(s)
    ensures Unhexlify(s).Err? ==>
              Unhexlify(s).error ==
                if !IsAscii(s) then NonAscii else if |s| % 2 == 1 then OddLength else NonHexDigit
    ensures Unhexlify(s).Ok? ==> Hexlify(Unhexlify(s).value) == LowerDigits(s)
  {
    if IsAscii(s) && |s| % 2 == 0 {
      DecodePairsSpec(s);
    }
  }

  /** A command text shorter than three characters is sliced to nothing and decodes
      to the empty command. */
  lemma ShortTransportIsEmptyCommand(t: string)
    requires |t| < 3
    ensures TransportDecode(t) == Ok([])
  {
  }
}
