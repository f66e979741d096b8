/** Bytes and hexadecimal text. */
module Hex {
  import opened Wrappers

  type Byte = x: int | 0 <= x < 256

  function DigitOf(c: char): (d: Option<nat>)
    ensures d.Some? ==> d.value < 16
  {
    if '0' <= c <= '9' then Some(c as int - '0' as int)
    else if 'a' <= c <= 'f' then Some(c as int - 'a' as int + 10)
    else if 'A' <= c <= 'F' then Some(c as int - 'A' as int + 10)
    else None
  }

  /** Either letter case is read; an odd length or any other character is an error. */
  function Decode(s: string): Option<seq<Byte>> {
    if s == "" then Some([])
    else if |s| == 1 || DigitOf(s[0]).None? || DigitOf(s[1]).None? then None
    else
      match Decode(s[2..])
      case None => None
      case Some(rest) => Some([16 * DigitOf(s[0]).value + DigitOf(s[1]).value] + rest)
  }

  function DecodeExact(s: string, n: nat): (r: Option<seq<Byte>>)
    ensures r.Some? ==> |r.value| == n
  {
    match Decode(s)
    case Some(bytes) => if |bytes| == n then Some(bytes) else None
    case None => None
  }

  function CharOf(d: nat): char
    requires d < 16
  {
    if d < 10 then '0' + d as char else 'a' + (d - 10) as char
  }

  function Encode(bytes: seq<Byte>): string {
    if bytes == [] then "" else [CharOf(bytes[0] / 16), CharOf(bytes[0] % 16)] + Encode(bytes[1..])
  }

  lemma {:induction false} EncodeThenDecode(bytes: seq<Byte>)
    ensures Decode(Encode(bytes)) == Some(bytes)
  {
    if bytes != [] {
      var s := Encode(bytes);
      EncodeThenDecode(bytes[1..]);
      assert s[2..] == Encode(bytes[1..]);
      assert bytes == [bytes[0]] + bytes[1..];
    }
  }

  predicate SameDigits(s: string, t: string) {
    |s| == |t| && forall i | 0 <= i < |s| :: DigitOf(s[i]) == DigitOf(t[i])
  }

  lemma SameDigitsSplit(s: string, t: string)
    requires |s| >= 2 && |t| >= 2
    ensures SameDigits(s, t) <==>
            DigitOf(s[0]) == DigitOf(t[0]) && DigitOf(s[1]) == DigitOf(t[1]) && SameDigits(s[2..], t[2..])
  {
    hide DigitOf;
    assert forall i | 2 <= i < |s| :: s[i] == s[2..][i - 2];
    assert forall i | 2 <= i < |t| :: t[i] == t[2..][i - 2];
  }

  /** Two texts decode to the same bytes exactly when they agree digit by digit, letter case aside. */
  lemma {:induction false} SameBytesIffSameDigits(s: string, t: string)
    requires Decode(s).Some? && Decode(t).Some?
    ensures Decode(s) == Decode(t) <==> SameDigits(s, t)
  {
    hide DigitOf;
    if s != "" && t != "" {
      SameBytesIffSameDigits(s[2..], t[2..]);
      SameDigitsSplit(s, t);
      hide SameDigits;
      var a, b := Decode(s).value, Decode(t).value;
      assert a[1..] == Decode(s[2..]).value && b[1..] == Decode(t[2..]).value;
      assert a == [a[0]] + a[1..] && b == [b[0]] + b[1..];
    }
  }
}
