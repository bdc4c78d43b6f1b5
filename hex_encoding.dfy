/** Go's `%x` verb applied to a byte slice: two lower-case hexadecimal
    digits per byte, most significant nibble first. */
module HexEncoding {
  import opened Results

  type Bytes = seq<bv8>

  const Digits: string := "0123456789abcdef"

  function DigitValue(ch: char): (r: Option<nat>)
    ensures r.Some? ==> r.value < 16 && Digits[r.value] == ch
    ensures r.None? ==> ch !in Digits
  {
    if '0' <= ch <= '9' then Some(ch as nat - '0' as nat)
    else if 'a' <= ch <= 'f' then Some(ch as nat - 'a' as nat + 10)
    else None
  }

  /** The two digits of one byte. */
  function HexByte(b: bv8): string {
    [Digits[b as nat / 16], Digits[b as nat % 16]]
  }

  /** `fmt.Sprintf("%x", bytes)` */
  function Hex(bytes: Bytes): (r: string)
    ensures |r| == 2 * |bytes|
    ensures forall k :: 0 <= k < |r| ==> r[k] in Digits
  {
    if |bytes| == 0 then "" else HexByte(bytes[0]) + Hex(bytes[1..])
  }

  /** Reads the digits back; None on an odd length or a non-digit. */
  function Unhex(s: string): Option<Bytes>
    decreases |s|
  {
    if |s| == 0 then Some([])
    else if |s| == 1 then None
    else
      var hi, lo, rest := DigitValue(s[0]), DigitValue(s[1]), Unhex(s[2..]);
      if hi.Some? && lo.Some? && rest.Some? then Some([(hi.value * 16 + lo.value) as bv8] + rest.value)
      else None
  }

  /** Every byte string is recovered from its hexadecimal form, so `%x`
      loses nothing. */
  lemma {:induction false} UnhexHex(bytes: Bytes)
    ensures Unhex(Hex(bytes)) == Some(bytes)
  {
    if |bytes| > 0 {
      var b := bytes[0];
      var s := Hex(bytes);
      assert s == HexByte(b) + Hex(bytes[1..]);
      assert s[2..] == Hex(bytes[1..]);
      UnhexHex(bytes[1..]);
      UnhexByte(b);
      assert s[0] == HexByte(b)[0] && s[1] == HexByte(b)[1];
      assert bytes == [b] + bytes[1..];
    }
  }

  /** The two digits of a byte read back as that byte. */
  lemma UnhexByte(b: bv8)
    ensures DigitValue(HexByte(b)[0]) == Some(b as nat / 16)
    ensures DigitValue(HexByte(b)[1]) == Some(b as nat % 16)
    ensures ((b as nat / 16) * 16 + b as nat % 16) as bv8 == b
  {
    var n := b as nat;
    assert (n / 16) * 16 + n % 16 == n;
    DigitRoundTrip(n / 16);
    DigitRoundTrip(n % 16);
  }

  lemma DigitRoundTrip(d: nat)
    requires d < 16
    ensures DigitValue(Digits[d]) == Some(d)
  {
  }

  /** So two different byte strings never print alike. */
  lemma HexInjective(a: Bytes, b: Bytes)
    requires Hex(a) == Hex(b)
    ensures a == b
  {
    UnhexHex(a);
    UnhexHex(b);
  }
}
