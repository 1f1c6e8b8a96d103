/** UTF-8, as far as needed to say what the bytes of the bullet written by
    pkg/markdown/parse.go are.  A byte is a `char`
    below 256, as everywhere in the scanner and converter. */
module Utf8 {

  /** A Unicode scalar value: a code point that is not a surrogate. */
  predicate IsScalar(r: nat) {
    r < 0x11_0000 && !(0xD800 <= r < 0xE000)
  }

  predicate IsByte(c: char) {
    c as int < 256
  }

  predicate IsContinuation(c: char) {
    0x80 <= c as int < 0xC0
  }

  function Byte(n: nat): (c: char)
    requires n < 256
    ensures c as int == n
  {
    n as char
  }

  /** The UTF-8 encoding of one scalar value (RFC 3629, section 3). */
  function EncodeRune(r: nat): (b: seq<char>)
    requires IsScalar(r)
    ensures 1 <= |b| <= 4
    ensures forall i | 0 <= i < |b| :: IsByte(b[i])
    ensures forall i | 1 <= i < |b| :: IsContinuation(b[i])
    ensures (|b| == 1 <==> r < 0x80) && (|b| == 2 <==> 0x80 <= r < 0x800)
    ensures (|b| == 3 <==> 0x800 <= r < 0x1_0000) && (|b| == 4 <==> 0x1_0000 <= r)
  {
    if r < 0x80 then [Byte(r)]
    else if r < 0x800 then [Byte(0xC0 + r / 64), Byte(0x80 + r % 64)]
    else if r < 0x1_0000 then [Byte(0xE0 + r / 4096), Byte(0x80 + r / 64 % 64), Byte(0x80 + r % 64)]
    else [Byte(0xF0 + r / 262144), Byte(0x80 + r / 4096 % 64), Byte(0x80 + r / 64 % 64), Byte(0x80 + r % 64)]
  }

  function Low6(c: char): nat
    requires IsContinuation(c)
  {
    c as int - 0x80
  }

  /** Decoding of one well-formed sequence of one to four bytes, rejecting
      overlong forms, surrogates and values past U+10FFFF. */
  function DecodeRune(b: seq<char>): (r: Option<nat>)
    ensures r.Some? ==> IsScalar(r.value)
  {
    if |b| == 1 && b[0] as int < 0x80 then Some(b[0] as int)
    else if |b| == 2 && 0xC0 <= b[0] as int < 0xE0 && IsContinuation(b[1]) then
      var v := (b[0] as int - 0xC0) * 64 + Low6(b[1]);
      if 0x80 <= v then Some(v) else None
    else if |b| == 3 && 0xE0 <= b[0] as int < 0xF0 && IsContinuation(b[1]) && IsContinuation(b[2]) then
      var v := (b[0] as int - 0xE0) * 4096 + Low6(b[1]) * 64 + Low6(b[2]);
      if 0x800 <= v && IsScalar(v) then Some(v) else None
    else if |b| == 4 && 0xF0 <= b[0] as int < 0xF8 && IsContinuation(b[1]) && IsContinuation(b[2]) && IsContinuation(b[3]) then
      var v := (b[0] as int - 0xF0) * 262144 + Low6(b[1]) * 4096 + Low6(b[2]) * 64 + Low6(b[3]);
      if 0x1_0000 <= v && IsScalar(v) then Some(v) else None
    else None
  }

  datatype Option<T> = None | Some(value: T)

  /** Decoding undoes encoding. */
  lemma DecodeEncode(r: nat)
    requires IsScalar(r)
    ensures DecodeRune(EncodeRune(r)) == Some(r)
  {
    var b := EncodeRune(r);
    if r < 0x80 {
    } else if r < 0x800 {
      Split64(r);
    } else if r < 0x1_0000 {
      Split64(r);
      Split64(r / 64);
      assert r / 64 / 64 == r / 4096;
    } else {
      Split64(r);
      Split64(r / 64);
      Split64(r / 4096);
      assert r / 64 / 64 == r / 4096;
      assert r / 4096 / 64 == r / 262144;
    }
  }

  lemma Split64(n: nat)
    ensures n == n / 64 * 64 + n % 64 && n % 64 < 64
  {
  }
}
