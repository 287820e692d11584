/**
 * GSM 7-bit packing behind an optional user data header (section 6.1.2.1 of 3GPP TS 23.038,
 * section 9.2.3.24 of 3GPP TS 23.040): pack_septets and unpack_septets of the SMS codec.
 */
module Septets {
  import opened Bytes

  /** Septets taken by a header of that many octets, fill bits included. */
  function HeaderSeptets(headerBytes: nat): (r: nat)
    ensures 7 * r - 6 <= 8 * headerBytes <= 7 * r
  {
    (headerBytes * 8 + 6) / 7
  }

  function PackedBytes(headerBytes: nat, count: nat): (r: nat)
    ensures 7 * (HeaderSeptets(headerBytes) + count) <= 8 * r < 7 * (HeaderSeptets(headerBytes) + count) + 8
    ensures headerBytes <= r
  {
    ((HeaderSeptets(headerBytes) + count) * 7 + 7) / 8
  }

  /** What bit b of a user data field means: header, zero fill, septets in order, zero padding. */
  predicate PackedBit(udh: seq<byte>, septets: seq<byte>, b: nat) {
    var start := 7 * HeaderSeptets(|udh|);
    if b < 8 * |udh| then BitAt(udh, b)
    else start <= b < start + 7 * |septets| && Bit(septets[(b - start) / 7], (b - start) % 7)
  }

  function Packed(udh: seq<byte>, septets: seq<byte>): (r: seq<byte>)
    ensures |r| == PackedBytes(|udh|, |septets|)
  {
    BytesOf(PackedBits(udh, septets), PackedBytes(|udh|, |septets|))
  }

  function PackedBits(udh: seq<byte>, septets: seq<byte>): nat -> bool {
    (b: nat) => PackedBit(udh, septets, b)
  }

  lemma PackedBitAt(udh: seq<byte>, septets: seq<byte>, b: nat)
    requires b < 8 * PackedBytes(|udh|, |septets|)
    ensures BitAt(Packed(udh, septets), b) == PackedBit(udh, septets, b)
  {
    BytesOfBit(PackedBits(udh, septets), PackedBytes(|udh|, |septets|), b);
  }

  /** A buffer of the right size is the packed field exactly when every bit agrees. */
  lemma PackedByBits(udh: seq<byte>, septets: seq<byte>, buf: seq<byte>)
    requires |buf| == PackedBytes(|udh|, |septets|)
    requires forall b: nat :: b < 8 * |buf| ==> BitAt(buf, b) == PackedBit(udh, septets, b)
    ensures buf == Packed(udh, septets)
  {
    var p := Packed(udh, septets);
    forall i: nat | i < |buf| ensures buf[i] == p[i] {
      forall k: nat | k < 8 ensures Bit(buf[i], k) == Bit(p[i], k) {
        var b := 8 * i + k;
        assert b / 8 == i && b % 8 == k;
        PackedBitAt(udh, septets, b);
        assert BitAt(buf, b) == PackedBit(udh, septets, b);
      }
      Pow2Values();
      SameBits(buf[i], p[i], 8);
    }
  }

  /** One octet-level step of the packing loop: or-ing `value << shift` into an octet. */
  lemma OrInto(old_: byte, value: nat, shift: nat, k: nat)
    requires shift < 8 && k < 8
    ensures Bit(Or(old_, Low(Shl(value, shift), 8)), k) == (Bit(old_, k) || (shift <= k && Bit(value, k - shift)))
  {
    BitOfOr(old_, Low(Shl(value, shift), 8), k);
    BitOfLow(Shl(value, shift), 8, k);
    BitOfShl(value, shift, k);
  }

  lemma OrHigh(old_: byte, value: nat, shift: nat, k: nat)
    requires shift < 8 && k < 8
    ensures Bit(Or(old_, Low(Shr(value, 8 - shift), 8)), k) == (Bit(old_, k) || Bit(value, k + 8 - shift))
  {
    BitOfOr(old_, Low(Shr(value, 8 - shift), 8), k);
    BitOfLow(Shr(value, 8 - shift), 8, k);
    BitOfShr(value, 8 - shift, k);
  }

  lemma {:induction false} OrIsByte(a: nat, b: nat, n: nat)
    requires a < Pow2(n) && b < Pow2(n)
    ensures Or(a, b) < Pow2(n)
    decreases n
  {
    if n > 0 && !(a == 0 && b == 0) { OrIsByte(a / 2, b / 2, n - 1); }
  }

  function OrByte(a: byte, b: nat): byte {
    Pow2Values();
    OrIsByte(a, Low(b, 8), 8);
    Or(a, Low(b, 8))
  }

  /** One septet stored at bit 8i + s, where it may reach into the next octet. */
  function Store(buf: seq<byte>, value: byte, i: nat, s: nat): (r: seq<byte>)
    requires s < 8 && i < |buf| && (s > 1 ==> i + 1 < |buf|)
    ensures |r| == |buf|
  {
    var v := Low(value, 7);
    var r := buf[i := OrByte(buf[i], Shl(v, s))];
    if s > 1 then r[i + 1 := OrByte(r[i + 1], Shr(v, 8 - s))] else r
  }

  lemma StoreBit(buf: seq<byte>, value: byte, i: nat, s: nat, j: nat, k: nat)
    requires s < 8 && i < |buf| && (s > 1 ==> i + 1 < |buf|) && j < |buf| && k < 8
    ensures var b, bit := 8 * j + k, 8 * i + s;
            Bit(Store(buf, value, i, s)[j], k)
            == (Bit(buf[j], k) || (bit <= b < bit + 7 && Bit(value, b - bit)))
  {
    var v := Low(value, 7);
    if j == i {
      OrInto(buf[i], v, s, k);
      if s <= k { BitOfLow(value, 7, k - s); }
    } else if j == i + 1 && s > 1 {
      OrHigh(buf[j], v, s, k);
      BitOfLow(value, 7, k + 8 - s);
    }
  }

  /** The buffer holds the header and the first i septets, and zeros elsewhere. */
  ghost predicate PackedUpTo(buf: seq<byte>, udh: seq<byte>, septets: seq<byte>, i: nat)
    requires i <= |septets|
  {
    && |buf| == PackedBytes(|udh|, |septets|)
    && forall b: nat :: b < 8 * |buf| ==> BitAt(buf, b) == PackedBit(udh, septets[..i], b)
  }

  lemma HeaderOnly(buf: seq<byte>, udh: seq<byte>, septets: seq<byte>)
    requires |buf| == PackedBytes(|udh|, |septets|)
    requires forall i :: 0 <= i < |buf| ==> buf[i] == if i < |udh| then udh[i] else 0
    ensures PackedUpTo(buf, udh, septets, 0)
  {
    forall b: nat | b < 8 * |buf| ensures BitAt(buf, b) == PackedBit(udh, septets[..0], b) {
      BitOfZero(b % 8);
    }
  }

  lemma StoreStep(buf: seq<byte>, udh: seq<byte>, septets: seq<byte>, i: nat)
    requires i < |septets| && PackedUpTo(buf, udh, septets, i)
    ensures var bit := 7 * (HeaderSeptets(|udh|) + i);
            PackedUpTo(Store(buf, septets[i], bit / 8, bit % 8), udh, septets, i + 1)
  {
    var bit := 7 * (HeaderSeptets(|udh|) + i);
    var after := Store(buf, septets[i], bit / 8, bit % 8);
    forall b: nat | b < 8 * |after| ensures BitAt(after, b) == PackedBit(udh, septets[..i + 1], b) {
      StoreBit(buf, septets[i], bit / 8, bit % 8, b / 8, b % 8);
      assert BitAt(buf, b) == PackedBit(udh, septets[..i], b);
      PackedBitStep(udh, septets, i, b);
    }
  }

  lemma PackedDone(buf: seq<byte>, udh: seq<byte>, septets: seq<byte>)
    requires PackedUpTo(buf, udh, septets, |septets|)
    ensures buf == Packed(udh, septets)
  {
    assert septets[..|septets|] == septets;
    PackedByBits(udh, septets, buf);
  }

  /** The body of the packing loop. */
  method StoreSeptet(out: array<byte>, septet: byte, bit: nat, totalBytes: nat)
    requires bit + 7 <= 8 * totalBytes && totalBytes <= out.Length
    modifies out
    ensures out[..totalBytes] == Store(old(out[..totalBytes]), septet, bit / 8, bit % 8)
    ensures out[totalBytes..] == old(out[totalBytes..])
  {
    var value := Low(septet, 7);
    var byteIndex := bit / 8;
    var shift := bit % 8;
    out[byteIndex] := OrByte(out[byteIndex], Shl(value, shift));
    if shift > 1 && byteIndex + 1 < totalBytes {
      out[byteIndex + 1] := OrByte(out[byteIndex + 1], Shr(value, 8 - shift));
    }
  }

  /** pack_septets: writes exactly the packed field, refuses only what does not fit. */
  method PackSeptets(septets: seq<byte>, udh: seq<byte>, out: array<byte>)
    returns (ok: bool, outBytes: nat, udl: nat)
    modifies out
    ensures ok == (HeaderSeptets(|udh|) + |septets| <= 255 && PackedBytes(|udh|, |septets|) <= out.Length)
    ensures ok ==> outBytes == PackedBytes(|udh|, |septets|) && udl == HeaderSeptets(|udh|) + |septets|
    ensures ok ==> out[..outBytes] == Packed(udh, septets)
    ensures ok ==> out[outBytes..] == old(out[outBytes..])
    ensures !ok ==> out[..] == old(out[..])
  {
    hide PackedUpTo, Packed, Store;
    var headerSeptets := if |udh| > 0 then HeaderSeptets(|udh|) else 0;
    var totalSeptets := headerSeptets + |septets|;
    var totalBytes := (totalSeptets * 7 + 7) / 8;
    if totalSeptets > 255 || totalBytes > out.Length {
      return false, 0, 0;
    }
    assert totalBytes == PackedBytes(|udh|, |septets|);
    forall i | 0 <= i < totalBytes { out[i] := 0; }
    forall i | 0 <= i < |udh| { out[i] := udh[i]; }
    assert out[totalBytes..] == old(out[totalBytes..]);
    HeaderOnly(out[..totalBytes], udh, septets);
    StoreAll(out, septets, udh, totalBytes);
    return true, totalBytes, totalSeptets;
  }

  /** The packing loop. */
  method StoreAll(out: array<byte>, septets: seq<byte>, udh: seq<byte>, totalBytes: nat)
    requires totalBytes == PackedBytes(|udh|, |septets|) <= out.Length && PackedUpTo(out[..totalBytes], udh, septets, 0)
    modifies out
    ensures out[..totalBytes] == Packed(udh, septets) && out[totalBytes..] == old(out[totalBytes..])
  {
    hide PackedUpTo, Packed, Store, HeaderSeptets;
    var bit := HeaderSeptets(|udh|) * 7;
    for i := 0 to |septets|
      invariant bit == 7 * (HeaderSeptets(|udh|) + i)
      invariant PackedUpTo(out[..totalBytes], udh, septets, i)
      invariant out[totalBytes..] == old(out[totalBytes..])
    {
      StoreStep(out[..totalBytes], udh, septets, i);
      StoreSeptet(out, septets[i], bit, totalBytes);
      bit := bit + 7;
    }
    PackedDone(out[..totalBytes], udh, septets);
  }

  lemma PackedBitStep(udh: seq<byte>, septets: seq<byte>, i: nat, b: nat)
    requires i < |septets|
    ensures var bit := 7 * HeaderSeptets(|udh|) + 7 * i;
            PackedBit(udh, septets[..i + 1], b)
            == (PackedBit(udh, septets[..i], b) || (bit <= b < bit + 7 && Bit(septets[i], b - bit)))
  {
  }

  /** Seven consecutive bits of a buffer. */
  function SeptetAt(buf: seq<byte>, bit: nat): (r: byte)
    requires bit + 7 <= 8 * |buf|
    ensures r < 128
  {
    Pow2Values();
    FromBits(BufferBits(buf), bit, 7)
  }

  function BufferBits(buf: seq<byte>): nat -> bool {
    (b: nat) => b < 8 * |buf| && BitAt(buf, b)
  }

  function Unpacked(buf: seq<byte>, startBit: nat, count: nat): (r: seq<byte>)
    requires startBit + 7 * count <= 8 * |buf|
    ensures |r| == count
  {
    seq(count, (i: nat) requires i < count => SeptetAt(buf, startBit + 7 * i))
  }

  /** unpack_septets: fails exactly when some septet reaches beyond the buffer. */
  method UnpackSeptets(packed: seq<byte>, startBit: nat, count: nat) returns (ok: bool, septets: seq<byte>)
    ensures ok == (count == 0 || startBit + 7 * count <= 8 * |packed|)
    ensures ok && count > 0 ==> septets == Unpacked(packed, startBit, count)
    ensures ok && count == 0 ==> septets == []
  {
    septets := [];
    for i := 0 to count
      invariant |septets| == i
      invariant i > 0 ==> startBit + 7 * i <= 8 * |packed|
      invariant forall j :: 0 <= j < i ==> septets[j] == SeptetAt(packed, startBit + 7 * j)
    {
      var inside, septet := LoadSeptetAt(packed, startBit + i * 7);
      if !inside {
        return false, septets;
      }
      septets := septets + [septet];
    }
    return true, septets;
  }

  /** The body of the unpacking loop. */
  method LoadSeptetAt(packed: seq<byte>, bit: nat) returns (ok: bool, septet: byte)
    ensures ok == (bit + 7 <= 8 * |packed|)
    ensures ok ==> septet == SeptetAt(packed, bit)
  {
    var byteIndex := bit / 8;
    var shift := bit % 8;
    if byteIndex >= |packed| {
      return false, 0;
    }
    var value := Shr(packed[byteIndex], shift);
    if shift > 1 {
      if byteIndex + 1 >= |packed| {
        return false, 0;
      }
      value := Or(value, Shl(packed[byteIndex + 1], 8 - shift));
    }
    LoadSeptet(packed, bit);
    return true, Low(value, 7);
  }

  /** What the source assembles for a septet that starts at bit s of octet i. */
  function Load(buf: seq<byte>, i: nat, s: nat): nat
    requires s < 8 && i < |buf| && (s > 1 ==> i + 1 < |buf|)
  {
    if s > 1 then Or(Shr(buf[i], s), Shl(buf[i + 1], 8 - s)) else Shr(buf[i], s)
  }

  lemma LoadBit(buf: seq<byte>, i: nat, s: nat, k: nat)
    requires s < 8 && k < 7 && i < |buf| && (s > 1 ==> i + 1 < |buf|)
    ensures Bit(Load(buf, i, s), k) == if s + k < 8 then Bit(buf[i], s + k) else Bit(buf[i + 1], s + k - 8)
  {
    BitOfShr(buf[i], s, k);
    if s > 1 {
      BitOfOr(Shr(buf[i], s), Shl(buf[i + 1], 8 - s), k);
      BitOfShl(buf[i + 1], 8 - s, k);
      if s + k >= 8 {
        Pow2Values();
        BitAboveWidth(buf[i], 8, k + s);
      }
    }
  }

  lemma LoadSeptet(buf: seq<byte>, bit: nat)
    requires bit + 7 <= 8 * |buf|
    ensures Low(Load(buf, bit / 8, bit % 8), 7) == SeptetAt(buf, bit)
  {
    hide Bit, Low, Load, FromBits;
    var i, s := bit / 8, bit % 8;
    var value := Load(buf, i, s);
    forall k: nat | k < 7 ensures Bit(Low(value, 7), k) == Bit(SeptetAt(buf, bit), k) {
      BitOfLow(value, 7, k);
      LoadBit(buf, i, s, k);
      BitOfFromBits(BufferBits(buf), bit, 7, k);
      SplitIndex(i, s, k);
    }
    Pow2Values();
    SameBits(Low(value, 7), SeptetAt(buf, bit), 7);
  }

  lemma SplitIndex(i: nat, s: nat, k: nat)
    requires s < 8 && k < 7
    ensures s + k < 8 ==> (8 * i + s + k) / 8 == i && (8 * i + s + k) % 8 == s + k
    ensures s + k >= 8 ==> (8 * i + s + k) / 8 == i + 1 && (8 * i + s + k) % 8 == s + k - 8
  {
  }

  /** Packing then unpacking behind the header gives back the septets. */
  lemma PackUnpack(udh: seq<byte>, septets: seq<byte>)
    requires forall i :: 0 <= i < |septets| ==> septets[i] < 128
    ensures 7 * HeaderSeptets(|udh|) + 7 * |septets| <= 8 * |Packed(udh, septets)|
    ensures Unpacked(Packed(udh, septets), 7 * HeaderSeptets(|udh|), |septets|) == septets
  {
    hide Bit, FromBits, PackedBit;
    var p := Packed(udh, septets);
    var start := 7 * HeaderSeptets(|udh|);
    var u := Unpacked(p, start, |septets|);
    forall i: nat | i < |septets| ensures u[i] == septets[i] {
      forall k: nat | k < 7 ensures Bit(u[i], k) == Bit(septets[i], k) {
        BitOfFromBits(BufferBits(p), start + 7 * i, 7, k);
        PackedBitOfSeptet(udh, septets, i, k);
      }
      Pow2Values();
      SameBits(u[i], septets[i], 7);
    }
  }

  lemma PackedBitOfSeptet(udh: seq<byte>, septets: seq<byte>, i: nat, k: nat)
    requires i < |septets| && k < 7
    ensures var b := 7 * HeaderSeptets(|udh|) + 7 * i + k;
            b < 8 * |Packed(udh, septets)| && BitAt(Packed(udh, septets), b) == Bit(septets[i], k)
  {
    var b := 7 * HeaderSeptets(|udh|) + 7 * i + k;
    PackedBitAt(udh, septets, b);
    assert (7 * i + k) / 7 == i && (7 * i + k) % 7 == k;
  }

  /** The header octets survive, the fill bits behind them and the padding bits at the end are zero. */
  lemma PackKeepsHeader(udh: seq<byte>, septets: seq<byte>)
    ensures Packed(udh, septets)[..|udh|] == udh
    ensures forall b: nat :: 8 * |udh| <= b < 7 * HeaderSeptets(|udh|) && b < 8 * |Packed(udh, septets)|
              ==> !BitAt(Packed(udh, septets), b)
    ensures forall b: nat :: 7 * (HeaderSeptets(|udh|) + |septets|) <= b < 8 * |Packed(udh, septets)|
              ==> !BitAt(Packed(udh, septets), b)
  {
    var p := Packed(udh, septets);
    forall b: nat | b < 8 * |p| ensures BitAt(p, b) == PackedBit(udh, septets, b) {
      PackedBitAt(udh, septets, b);
    }
    forall i: nat | i < |udh| ensures p[i] == udh[i] {
      forall k: nat | k < 8 ensures Bit(p[i], k) == Bit(udh[i], k) {
        var b := 8 * i + k;
        assert b / 8 == i && b % 8 == k;
        assert BitAt(p, b) == PackedBit(udh, septets, b);
      }
      Pow2Values();
      SameBits(p[i], udh[i], 8);
    }
  }
}
