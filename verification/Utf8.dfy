/**
 * UTF-8 (section 3 of RFC 3629) as sms_utf8_next and sms_utf8_append read and write it.
 * Masks and shifts by constants are written as division and remainder.
 */
module Utf8 {
  import opened Bytes

  predicate IsScalar(cp: int) {
    0 <= cp <= 0x10FFFF && !(0xD800 <= cp <= 0xDFFF)
  }

  /** The octet at index i, or the terminator behind the last one. */
  function At(s: seq<byte>, i: nat): byte {
    if i < |s| then s[i] else 0
  }

  predicate Continuation(b: byte) {
    b / 64 == 2
  }

  datatype Code = Code(cp: nat, used: nat)

  /** sms_utf8_next on the octets at the cursor. */
  function Next(s: seq<byte>): (r: Option<Code>)
    ensures r.Some? ==> IsScalar(r.value.cp) && r.value.cp > 0 && 1 <= r.value.used <= |s|
  {
    var b0, b1, b2, b3 := At(s, 0), At(s, 1), At(s, 2), At(s, 3);
    if b0 == 0 then None
    else if b0 < 0x80 then Some(Code(b0, 1))
    else if b0 / 32 == 6 then
      if !Continuation(b1) then None else
      var cp := b0 % 32 * 64 + b1 % 64;
      if cp < 0x80 then None else Some(Code(cp, 2))
    else if b0 / 16 == 14 then
      if !Continuation(b1) || !Continuation(b2) then None else
      var cp := b0 % 16 * 4096 + b1 % 64 * 64 + b2 % 64;
      if cp < 0x800 || (0xD800 <= cp <= 0xDFFF) then None else Some(Code(cp, 3))
    else if b0 / 8 == 30 then
      if !Continuation(b1) || !Continuation(b2) || !Continuation(b3) then None else
      var cp := b0 % 8 * 0x40000 + b1 % 64 * 4096 + b2 % 64 * 64 + b3 % 64;
      if cp < 0x10000 || cp > 0x10FFFF then None else Some(Code(cp, 4))
    else None
  }

  /** The octets sms_utf8_append writes; a surrogate falls into its four-octet branch. */
  function Encode(cp: nat): (r: Option<seq<byte>>)
    ensures r.Some? <==> cp <= 0x10FFFF
    ensures r.Some? ==> 1 <= |r.value| <= 4
  {
    if cp <= 0x7F then Some([cp])
    else if cp <= 0x7FF then Some([0xC0 + cp / 64, 0x80 + cp % 64])
    else if cp <= 0xFFFF && !(0xD800 <= cp <= 0xDFFF) then
      Some([0xE0 + cp / 4096, 0x80 + cp / 64 % 64, 0x80 + cp % 64])
    else if cp <= 0x10FFFF then
      Some([0xF0 + cp / 0x40000, 0x80 + cp / 4096 % 64, 0x80 + cp / 64 % 64, 0x80 + cp % 64])
    else None
  }

  /** Only the shortest form of a scalar value is accepted: encoding it again gives the octets read. */
  lemma NextIsEncoded(s: seq<byte>)
    requires Next(s).Some?
    ensures Encode(Next(s).value.cp) == Some(s[..Next(s).value.used])
  {
    hide Continuation;
    var used := Next(s).value.used;
    if used == 1 {
      assert s[..1] == [s[0]];
    } else if used == 2 {
      Octets2(s[0], s[1]);
      assert s[..2] == [s[0], s[1]];
    } else if used == 3 {
      Octets3(s[0], s[1], s[2]);
      assert s[..3] == [s[0], s[1], s[2]];
    } else {
      Octets4(s[0], s[1], s[2], s[3]);
      assert s[..4] == [s[0], s[1], s[2], s[3]];
    }
  }

  lemma Octets2(b0: byte, b1: byte)
    requires b0 / 32 == 6 && Continuation(b1)
    ensures var cp := b0 % 32 * 64 + b1 % 64; 0xC0 + cp / 64 == b0 && 0x80 + cp % 64 == b1
  {
  }

  lemma Octets3(b0: byte, b1: byte, b2: byte)
    requires b0 / 16 == 14 && Continuation(b1) && Continuation(b2)
    ensures var cp := b0 % 16 * 4096 + b1 % 64 * 64 + b2 % 64;
            0xE0 + cp / 4096 == b0 && 0x80 + cp / 64 % 64 == b1 && 0x80 + cp % 64 == b2
  {
    var cp := b0 % 16 * 4096 + b1 % 64 * 64 + b2 % 64;
    assert cp / 64 == b0 % 16 * 64 + b1 % 64;
  }

  lemma Octets4(b0: byte, b1: byte, b2: byte, b3: byte)
    requires b0 / 8 == 30 && Continuation(b1) && Continuation(b2) && Continuation(b3)
    ensures var cp := b0 % 8 * 0x40000 + b1 % 64 * 4096 + b2 % 64 * 64 + b3 % 64;
            0xF0 + cp / 0x40000 == b0 && 0x80 + cp / 4096 % 64 == b1
            && 0x80 + cp / 64 % 64 == b2 && 0x80 + cp % 64 == b3
  {
    var cp := b0 % 8 * 0x40000 + b1 % 64 * 4096 + b2 % 64 * 64 + b3 % 64;
    assert cp / 64 == b0 % 8 * 4096 + b1 % 64 * 64 + b2 % 64;
    assert cp / 4096 == b0 % 8 * 64 + b1 % 64;
  }

  /** What is appended for a scalar value is read back as that value, whatever follows. */
  lemma NextOfEncode(cp: nat, rest: seq<byte>)
    requires IsScalar(cp) && cp > 0
    ensures Encode(cp).Some? && Next(Encode(cp).value + rest) == Some(Code(cp, |Encode(cp).value|))
  {
    var e := Encode(cp).value;
    var s := e + rest;
    assert At(s, 0) == e[0];
    if cp > 0x7F {
      assert At(s, 1) == e[1];
      if cp > 0x7FF {
        assert At(s, 2) == e[2];
        if cp > 0xFFFF {
          assert At(s, 3) == e[3];
          Digits4(cp);
        } else {
          Digits3(cp);
        }
      } else {
        Digits2(cp);
      }
    }
  }

  lemma Digits2(cp: nat)
    requires 0x80 <= cp <= 0x7FF
    ensures var b0, b1 := 0xC0 + cp / 64, 0x80 + cp % 64;
            b0 / 32 == 6 && Continuation(b1) && b0 % 32 * 64 + b1 % 64 == cp
  {
  }

  lemma Digits3(cp: nat)
    requires 0x800 <= cp <= 0xFFFF
    ensures var b0, b1, b2 := 0xE0 + cp / 4096, 0x80 + cp / 64 % 64, 0x80 + cp % 64;
            b0 / 16 == 14 && Continuation(b1) && Continuation(b2)
            && b0 % 16 * 4096 + b1 % 64 * 64 + b2 % 64 == cp
  {
    var high, low := cp / 64, cp % 64;
    assert cp == 64 * high + low && cp / 4096 == high / 64;
    assert high == 64 * (high / 64) + high % 64;
    assert (0xE0 + high / 64) % 16 == high / 64 && (0x80 + high % 64) % 64 == high % 64;
  }

  lemma Digits4(cp: nat)
    requires 0x10000 <= cp <= 0x10FFFF
    ensures var b0, b1, b2, b3 := 0xF0 + cp / 0x40000, 0x80 + cp / 4096 % 64, 0x80 + cp / 64 % 64, 0x80 + cp % 64;
            b0 / 8 == 30 && Continuation(b1) && Continuation(b2) && Continuation(b3)
            && b0 % 8 * 0x40000 + b1 % 64 * 4096 + b2 % 64 * 64 + b3 % 64 == cp
  {
    assert cp / 4096 == cp / 64 / 64 && cp / 0x40000 == cp / 4096 / 64;
  }

  /** A surrogate is written as four octets that no reader accepts. */
  lemma SurrogateNotReadBack(cp: nat, rest: seq<byte>)
    requires 0xD800 <= cp <= 0xDFFF
    ensures Encode(cp).Some? && Next(Encode(cp).value + rest).None?
  {
    var e := Encode(cp).value;
    var s := e + rest;
    assert At(s, 0) == e[0] && At(s, 1) == e[1] && At(s, 2) == e[2] && At(s, 3) == e[3];
  }

  /** sms_utf8_append on the text built so far; one octet of capacity is kept for the terminator. */
  function Append(cp: nat, text: seq<byte>, capacity: nat): (r: Option<seq<byte>>)
    ensures r.Some? <==> Encode(cp).Some? && |text| + |Encode(cp).value| < capacity
    ensures r.Some? ==> r.value == text + Encode(cp).value
  {
    if |text| >= capacity then None
    else match Encode(cp)
      case None => None
      case Some(e) => if |e| + |text| >= capacity then None else Some(text + e)
  }
}
