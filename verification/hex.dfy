/** Bytes and their hexadecimal text, as Node's `buf.toString("hex")` writes it and
    `Buffer.from(text, "hex")` reads it back. */
module Hex {
  import opened Wrappers

  newtype byte = x: int | 0 <= x < 256

  /** The lower-case digit Node writes for a nibble. */
  function Digit(n: int): (ch: char)
    requires 0 <= n < 16
    ensures DigitValue(ch) == Some(n)
  {
    if n < 10 then (48 + n) as char else (87 + n) as char
  }

  /** The nibble a hexadecimal digit stands for; Node accepts either case. */
  function DigitValue(ch: char): (v: Option<int>)
    ensures v.Some? ==> 0 <= v.value < 16
  {
    if '0' <= ch <= '9' then Some(ch as int - 48)
    else if 'a' <= ch <= 'f' then Some(ch as int - 87)
    else if 'A' <= ch <= 'F' then Some(ch as int - 55)
    else None
  }

  /** `buf.toString("hex")`: two digits per byte, high nibble first. */
  function Encode(b: seq<byte>): (s: string)
    ensures |s| == 2 * |b|
    ensures forall i :: 0 <= i < |s| ==> DigitValue(s[i]).Some?
  {
    if |b| == 0 then ""
    else [Digit(b[0] as int / 16), Digit(b[0] as int % 16)] + Encode(b[1..])
  }

  /** `Buffer.from(s, "hex")`: reads digit pairs from the left and silently stops at the
      first pair that is not two hexadecimal digits; a trailing odd digit is dropped. Every
      byte comes from its pair, and decoding ends only at the end of the text, at a lone
      last digit, or at a pair that is not two digits. */
  function Decode(s: string): (b: seq<byte>)
    ensures 2 * |b| <= |s|
    ensures forall i :: 0 <= i < |b| ==> PairAt(s, 2 * i) == Some(b[i])
    ensures 2 * |b| + 1 < |s| ==> PairAt(s, 2 * |b|).None?
    decreases |s|
  {
    if |s| < 2 then []
    else
      match (DigitValue(s[0]), DigitValue(s[1]))
      case (Some(hi), Some(lo)) =>
        var rest := Decode(s[2..]);
        assert forall k :: 0 <= k && k + 1 < |s[2..]| ==> PairAt(s[2..], k) == PairAt(s, k + 2);
        [(hi * 16 + lo) as byte] + rest
      case _ => []
  }

  /** The byte the two digits at `s[k]` and `s[k + 1]` spell, if both are digits. */
  function PairAt(s: string, k: nat): Option<byte>
    requires k + 1 < |s|
  {
    match (DigitValue(s[k]), DigitValue(s[k + 1]))
    case (Some(hi), Some(lo)) => Some((hi * 16 + lo) as byte)
    case _ => None
  }

  /** Reading back what was written gives the same bytes. */
  lemma {:induction false} DecodeEncode(b: seq<byte>)
    ensures Decode(Encode(b)) == b
  {
    if |b| > 0 {
      var s := Encode(b);
      assert s[2..] == Encode(b[1..]);
      DecodeEncode(b[1..]);
      assert b == [b[0]] + b[1..];
    }
  }
}
