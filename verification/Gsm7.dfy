/**
 * The GSM default alphabet and its extension table (sections 6.2.1 and 6.2.1.1 of
 * 3GPP TS 23.038), and the conversions of sms_gsm7.c.
 */
module Gsm7 {
  import opened Bytes
  import Utf8

  const ESC: byte := 0x1B

  function BasicRow(row: nat): (r: seq<nat>)
    requires row < 16
    ensures |r| == 8
  {
    match row
    case 0 => [0x0040, 0x00A3, 0x0024, 0x00A5, 0x00E8, 0x00E9, 0x00F9, 0x00EC]
    case 1 => [0x00F2, 0x00C7, 0x000A, 0x00D8, 0x00F8, 0x000D, 0x00C5, 0x00E5]
    case 2 => [0x0394, 0x005F, 0x03A6, 0x0393, 0x039B, 0x03A9, 0x03A0, 0x03A8]
    case 3 => [0x03A3, 0x0398, 0x039E, 0x001B, 0x00C6, 0x00E6, 0x00DF, 0x00C9]
    case 4 => [0x0020, 0x0021, 0x0022, 0x0023, 0x00A4, 0x0025, 0x0026, 0x0027]
    case 5 => [0x0028, 0x0029, 0x002A, 0x002B, 0x002C, 0x002D, 0x002E, 0x002F]
    case 6 => [0x0030, 0x0031, 0x0032, 0x0033, 0x0034, 0x0035, 0x0036, 0x0037]
    case 7 => [0x0038, 0x0039, 0x003A, 0x003B, 0x003C, 0x003D, 0x003E, 0x003F]
    case 8 => [0x00A1, 0x0041, 0x0042, 0x0043, 0x0044, 0x0045, 0x0046, 0x0047]
    case 9 => [0x0048, 0x0049, 0x004A, 0x004B, 0x004C, 0x004D, 0x004E, 0x004F]
    case 10 => [0x0050, 0x0051, 0x0052, 0x0053, 0x0054, 0x0055, 0x0056, 0x0057]
    case 11 => [0x0058, 0x0059, 0x005A, 0x00C4, 0x00D6, 0x00D1, 0x00DC, 0x00A7]
    case 12 => [0x00BF, 0x0061, 0x0062, 0x0063, 0x0064, 0x0065, 0x0066, 0x0067]
    case 13 => [0x0068, 0x0069, 0x006A, 0x006B, 0x006C, 0x006D, 0x006E, 0x006F]
    case 14 => [0x0070, 0x0071, 0x0072, 0x0073, 0x0074, 0x0075, 0x0076, 0x0077]
    case 15 => [0x0078, 0x0079, 0x007A, 0x00E4, 0x00F6, 0x00F1, 0x00FC, 0x00E0]
  }

  function Basic(i: nat): nat
    requires i < 128
  {
    BasicRow(i / 8)[i % 8]
  }

  /** The chart of section 6.2.1 of 3GPP TS 23.038, as characters. */
  function Chart(row: nat): (r: string)
    requires row < 16
    ensures |r| == 8
  {
    match row
    case 0 => "@£$¥èéùì"
    case 1 => "òÇ\nØø\rÅå"
    case 2 => "Δ_ΦΓΛΩΠΨ"
    case 3 => "ΣΘΞ\U{1B}ÆæßÉ"
    case 4 => " !\"#¤%&'"
    case 5 => "()*+,-./"
    case 6 => "01234567"
    case 7 => "89:;<=>?"
    case 8 => "¡ABCDEFG"
    case 9 => "HIJKLMNO"
    case 10 => "PQRSTUVW"
    case 11 => "XYZÄÖÑÜ§"
    case 12 => "¿abcdefg"
    case 13 => "hijklmno"
    case 14 => "pqrstuvw"
    case 15 => "xyzäöñüà"
  }

  /** The table is the chart. */
  lemma BasicIsChart(i: nat)
    requires i < 128
    ensures Basic(i) == Chart(i / 8)[i % 8] as int
  {
    hide BasicRow, Chart;
    RowIsChart(i / 8);
    assert i % 8 in {0, 1, 2, 3, 4, 5, 6, 7};
  }

  predicate RowAgrees(row: nat)
    requires row < 16
  {
    && BasicRow(row)[0] == Chart(row)[0] as int && BasicRow(row)[1] == Chart(row)[1] as int
    && BasicRow(row)[2] == Chart(row)[2] as int && BasicRow(row)[3] == Chart(row)[3] as int
    && BasicRow(row)[4] == Chart(row)[4] as int && BasicRow(row)[5] == Chart(row)[5] as int
    && BasicRow(row)[6] == Chart(row)[6] as int && BasicRow(row)[7] == Chart(row)[7] as int
  }

  lemma RowIsChart(row: nat)
    requires row < 16
    ensures RowAgrees(row)
  {
    hide RowAgrees;
    if row < 4 { RowsFrom0(row); } else if row < 8 { RowsFrom4(row); } else if row < 12 { RowsFrom8(row); } else { RowsFrom12(row); }
  }

  lemma RowsFrom0(row: nat)
    requires 0 <= row < 4
    ensures RowAgrees(row)
  {
  }

  lemma RowsFrom4(row: nat)
    requires 4 <= row < 8
    ensures RowAgrees(row)
  {
  }

  lemma RowsFrom8(row: nat)
    requires 8 <= row < 12
    ensures RowAgrees(row)
  {
  }

  lemma RowsFrom12(row: nat)
    requires 12 <= row < 16
    ensures RowAgrees(row)
  {
  }

  datatype Ext = Ext(cp: nat, code: byte)

  const EXTENSION: seq<Ext> :=
    [Ext(0x000C, 0x0A), Ext(0x005E, 0x14), Ext(0x007B, 0x28), Ext(0x007D, 0x29), Ext(0x005C, 0x2F),
     Ext(0x005B, 0x3C), Ext(0x007E, 0x3D), Ext(0x005D, 0x3E), Ext(0x007C, 0x40), Ext(0x20AC, 0x65)]

  /** Section 6.2.1.1: form feed, ^, {, }, \\, [, ~, ], | and the euro sign behind the escape. */
  lemma ExtensionIsChart(j: nat)
    requires j < |EXTENSION|
    ensures |EXTENSION| == 10 && EXTENSION[j].cp == "\U{0C}^{}\\[~]|€"[j] as int
    ensures EXTENSION[j].code == [0x0A, 0x14, 0x28, 0x29, 0x2F, 0x3C, 0x3D, 0x3E, 0x40, 0x65][j]
  {
    assert j in {0, 1, 2, 3, 4, 5, 6, 7, 8, 9};
  }

  /** First table position of cp from i on, the escape position left out. */
  function BasicIndex(cp: nat, i: nat): (r: Option<nat>)
    requires i <= 128
    ensures r.Some? ==> i <= r.value < 128 && r.value != ESC && Basic(r.value) == cp
    decreases 128 - i, cp
  {
    if i == 128 then None
    else if i != ESC && Basic(i) == cp then Some(i)
    else BasicIndex(cp, i + 1)
  }

  function ExtByCp(cp: nat, i: nat): (r: Option<byte>)
    requires i <= |EXTENSION|
    ensures r.Some? ==> exists j :: i <= j < |EXTENSION| && EXTENSION[j] == Ext(cp, r.value)
    decreases |EXTENSION| - i, cp
  {
    if i == |EXTENSION| then None
    else if EXTENSION[i].cp == cp then Some(EXTENSION[i].code)
    else ExtByCp(cp, i + 1)
  }

  function ExtByCode(code: byte, i: nat): (r: Option<nat>)
    requires i <= |EXTENSION|
    ensures r.Some? ==> exists j :: i <= j < |EXTENSION| && EXTENSION[j] == Ext(r.value, code)
    decreases |EXTENSION| - i, code
  {
    if i == |EXTENSION| then None
    else if EXTENSION[i].code == code then Some(EXTENSION[i].cp)
    else ExtByCode(code, i + 1)
  }

  /** The septets of one code point, if the alphabet has it. */
  function Find(cp: nat): (r: Option<seq<byte>>)
    ensures r.Some? ==> 1 <= |r.value| <= 2
  {
    match BasicIndex(cp, 0)
    case Some(i) => Some([i])
    case None =>
      match ExtByCp(cp, 0)
      case Some(code) => Some([ESC, code])
      case None => None
  }

  /** gsm7_find: the two table searches. */
  method Gsm7Find(cp: nat) returns (r: Option<seq<byte>>)
    ensures r == Find(cp)
  {
    for i := 0 to 128
      invariant BasicIndex(cp, 0) == BasicIndex(cp, i)
    {
      if i != ESC && Basic(i) == cp {
        return Some([i]);
      }
    }
    for i := 0 to |EXTENSION|
      invariant ExtByCp(cp, 0) == ExtByCp(cp, i)
    {
      if EXTENSION[i].cp == cp {
        return Some([ESC, EXTENSION[i].code]);
      }
    }
    return None;
  }

  /** No extension code is the escape, and each is looked up as the entry it came from. */
  lemma ExtensionTable(j: nat)
    requires j < |EXTENSION|
    ensures EXTENSION[j].code < 128 && EXTENSION[j].code != ESC
    ensures ExtByCode(EXTENSION[j].code, 0) == Some(EXTENSION[j].cp)
  {
    ExtensionSearch(j, 0);
  }

  lemma {:induction false} ExtensionSearch(j: nat, i: nat)
    requires i <= j < |EXTENSION|
    ensures ExtByCode(EXTENSION[j].code, i) == Some(EXTENSION[j].cp)
    decreases j - i
  {
    if i < j {
      assert EXTENSION[i].code != EXTENSION[j].code;
      ExtensionSearch(j, i + 1);
    }
  }

  /** The septets of a text; none if it is not UTF-8 or leaves the alphabet. */
  function EncodeText(text: seq<byte>): Option<seq<byte>>
    decreases |text|
  {
    if text == [] then Some([])
    else match Utf8.Next(text)
      case None => None
      case Some(code) =>
        match Find(code.cp)
        case None => None
        case Some(septets) => Prepend(septets, EncodeText(text[code.used..]))
  }

  /** sms_gsm7_septet_count; None stands for SIZE_MAX. */
  method SeptetCount(text: seq<byte>) returns (total: Option<nat>)
    ensures total == match EncodeText(text) case None => None case Some(s) => Some(|s|)
  {
    hide Utf8.Next, Find;
    var n, cursor := 0, 0;
    ghost var done := [];
    PrependNothing(EncodeText(text));
    assert text[0..] == text;
    while cursor < |text|
      invariant cursor <= |text| && |done| == n
      invariant EncodeText(text) == Prepend(done, EncodeText(text[cursor..]))
    {
      match Utf8.Next(text[cursor..]) {
        case None => return None;
        case Some(code) =>
          var found := Gsm7Find(code.cp);
          if found.None? {
            return None;
          }
          PrependStep(text[cursor..], code, done, found.value);
          assert text[cursor..][code.used..] == text[cursor + code.used..];
          done := done + found.value;
          n := n + |found.value|;
          cursor := cursor + code.used;
      }
    }
    assert text[cursor..] == [];
    return Some(n);
  }

  lemma PrependStep(rest: seq<byte>, code: Utf8.Code, done: seq<byte>, septets: seq<byte>)
    requires rest != [] && Utf8.Next(rest) == Some(code) && Find(code.cp) == Some(septets)
    ensures Prepend(done, EncodeText(rest)) == Prepend(done + septets, EncodeText(rest[code.used..]))
  {
    match EncodeText(rest[code.used..]) {
      case None =>
      case Some(v) => assert done + (septets + v) == done + septets + v;
    }
  }

  /** sms_gsm7_encode. */
  method Encode(text: seq<byte>, capacity: nat) returns (r: Option<seq<byte>>)
    ensures r == match EncodeText(text)
                 case None => None
                 case Some(s) => if |s| <= capacity then Some(s) else None
  {
    var out: seq<byte>, cursor := [], 0;
    PrependNothing(EncodeText(text));
    assert text[0..] == text;
    while cursor < |text|
      invariant cursor <= |text| && |out| <= capacity
      invariant EncodeText(text) == Prepend(out, EncodeText(text[cursor..]))
    {
      match Utf8.Next(text[cursor..]) {
        case None => return None;
        case Some(code) =>
          var found := Gsm7Find(code.cp);
          if found.None? {
            return None;
          }
          PrependStep(text[cursor..], code, out, found.value);
          assert text[cursor..][code.used..] == text[cursor + code.used..];
          if |out| + |found.value| > capacity {
            return None;
          }
          out := out + found.value;
          cursor := cursor + code.used;
      }
    }
    assert text[cursor..] == [] && out + [] == out;
    return Some(out);
  }

  /** The code point of the first septets and how many they are. */
  function NextSeptets(septets: seq<byte>): (r: Option<Utf8.Code>)
    requires septets != []
    ensures r.Some? ==> 1 <= r.value.used <= |septets|
  {
    if septets[0] == ESC then
      if |septets| < 2 then None
      else match ExtByCode(septets[1], 0)
        case None => None
        case Some(cp) => Some(Utf8.Code(cp, 2))
    else Some(Utf8.Code(Basic(septets[0] % 128), 1))
  }

  /** The text of a septet string; none on an escape that is cut or unknown. */
  function DecodeText(septets: seq<byte>): Option<seq<byte>>
    decreases |septets|
  {
    if septets == [] then Some([])
    else match NextSeptets(septets)
      case None => None
      case Some(code) =>
        match Utf8.Encode(code.cp)
        case None => None
        case Some(e) => Prepend(e, DecodeText(septets[code.used..]))
  }

  /** sms_gsm7_decode. */
  method Decode(septets: seq<byte>, capacity: nat) returns (r: Option<seq<byte>>)
    ensures r == match DecodeText(septets)
                 case None => None
                 case Some(t) => if |t| < capacity then Some(t) else None
  {
    if capacity == 0 {
      return None;
    }
    hide NextSeptets, Basic, ExtByCode, DecodeText, Utf8.Encode;
    NothingDecodes();
    var out: seq<byte>, i := [], 0;
    PrependNothing(DecodeText(septets));
    assert septets[0..] == septets;
    while i < |septets|
      invariant i <= |septets| && |out| < capacity
      invariant DecodeText(septets) == Prepend(out, DecodeText(septets[i..]))
    {
      var next := NextCode(septets, i);
      if next.None? {
        return None;
      }
      var Code(cp, used) := next.value;
      DecodeStep(septets[i..], next.value, out);
      assert septets[i..][used..] == septets[i + used..];
      var appended := Utf8.Append(cp, out, capacity);
      if appended.None? {
        return None;
      }
      out := appended.value;
      i := i + used;
    }
    assert septets[i..] == [] && out + [] == out;
    return Some(out);
  }

  lemma NothingDecodes()
    ensures DecodeText([]) == Some([])
  {
  }

  lemma DecodeStep(rest: seq<byte>, code: Utf8.Code, done: seq<byte>)
    requires rest != [] && NextSeptets(rest) == Some(code)
    ensures Prepend(done, DecodeText(rest))
         == match Utf8.Encode(code.cp)
            case None => None
            case Some(e) => Prepend(done + e, DecodeText(rest[code.used..]))
  {
    var tail := DecodeText(rest[code.used..]);
    if Utf8.Encode(code.cp).Some? && tail.Some? {
      var e := Utf8.Encode(code.cp).value;
      assert done + (e + tail.value) == done + e + tail.value;
    }
  }

  method NextCode(septets: seq<byte>, i: nat) returns (r: Option<Utf8.Code>)
    requires i < |septets|
    ensures r == NextSeptets(septets[i..])
  {
    if septets[i] == ESC {
      if i + 1 >= |septets| {
        return None;
      }
      var found := ExtensionDecode(septets[i + 1]);
      if found.None? {
        return None;
      }
      return Some(Utf8.Code(found.value, 2));
    }
    return Some(Utf8.Code(Basic(septets[i] % 128), 1));
  }

  /** gsm7_extension_decode. */
  method ExtensionDecode(value: byte) returns (r: Option<nat>)
    ensures r == ExtByCode(value, 0)
  {
    for i := 0 to |EXTENSION|
      invariant ExtByCode(value, 0) == ExtByCode(value, i)
    {
      if EXTENSION[i].code == value {
        return Some(EXTENSION[i].cp);
      }
    }
    return None;
  }

  /** The septets of one code point, whatever follows them, read back as that code point. */
  lemma FindIsRead(cp: nat, rest: seq<byte>)
    requires Find(cp).Some?
    ensures NextSeptets(Find(cp).value + rest) == Some(Utf8.Code(cp, |Find(cp).value|))
    ensures forall x :: x in Find(cp).value ==> x < 128
    ensures Find(cp).value[|Find(cp).value| - 1] != ESC
  {
    match BasicIndex(cp, 0) {
      case Some(i) =>
        BasicIsRead(i, rest);
      case None =>
        ExtensionIsRead(cp, ExtByCp(cp, 0).value, rest);
    }
  }

  lemma BasicIsRead(i: byte, rest: seq<byte>)
    requires i < 128 && i != ESC
    ensures NextSeptets([i] + rest) == Some(Utf8.Code(Basic(i), 1))
  {
    hide Basic, ExtByCode;
    assert ([i] + rest)[0] == i;
  }

  lemma ExtensionIsRead(cp: nat, code: byte, rest: seq<byte>)
    requires exists j :: 0 <= j < |EXTENSION| && EXTENSION[j] == Ext(cp, code)
    ensures NextSeptets([ESC, code] + rest) == Some(Utf8.Code(cp, 2))
    ensures code < 128 && code != ESC
  {
    var j :| 0 <= j < |EXTENSION| && EXTENSION[j] == Ext(cp, code);
    ExtensionTable(j);
    var s := [ESC, code] + rest;
    assert s[0] == ESC && s[1] == code;
  }

  /** Encoding followed by decoding is the identity on every text the alphabet covers. */
  lemma {:induction false} TextRoundTrip(text: seq<byte>)
    requires EncodeText(text).Some?
    ensures DecodeText(EncodeText(text).value) == Some(text)
    ensures forall x :: x in EncodeText(text).value ==> x < 128
    decreases |text|
  {
    hide Utf8.Next, Utf8.Encode, Find, NextSeptets;
    if text != [] {
      var code := Utf8.Next(text).value;
      var septets := Find(code.cp).value;
      var rest := text[code.used..];
      TextRoundTrip(rest);
      FindIsRead(code.cp, EncodeText(rest).value);
      var all := septets + EncodeText(rest).value;
      assert all[|septets|..] == EncodeText(rest).value;
      Utf8.NextIsEncoded(text);
      assert text[..code.used] + rest == text;
    }
  }

  /** Cutting decodable septets anywhere but behind an escape leaves two decodable strings. */
  lemma {:induction false} CutDecodes(septets: seq<byte>, p: nat)
    requires DecodeText(septets).Some? && p <= |septets|
    requires p > 0 ==> septets[p - 1] != ESC
    ensures DecodeText(septets[..p]).Some? && DecodeText(septets[p..]).Some?
    ensures DecodeText(septets).value == DecodeText(septets[..p]).value + DecodeText(septets[p..]).value
    decreases |septets|
  {
    hide Utf8.Encode, Basic, ExtByCode;
    if p == 0 {
      assert septets[..0] == [] && septets[0..] == septets;
    } else {
      var code := NextSeptets(septets).value;
      var rest := septets[code.used..];
      if code.used > p {
        assert false;
      }
      var q := p - code.used;
      if q > 0 { assert rest[q - 1] == septets[p - 1]; }
      CutDecodes(rest, q);
      assert septets[..p][code.used..] == rest[..q];
      assert septets[p..] == rest[q..];
      assert NextSeptets(septets[..p]) == Some(code);
      JoinsOn(Utf8.Encode(code.cp).value, DecodeText(rest[..q]).value, DecodeText(rest[q..]).value);
    }
  }

  lemma JoinsOn(a: seq<byte>, b: seq<byte>, c: seq<byte>)
    ensures a + (b + c) == a + b + c
  {
  }

  lemma NoEscapedEscape()
    ensures ExtByCode(ESC, 0).None?
  {
    if ExtByCode(ESC, 0).Some? {
      var j :| 0 <= j < |EXTENSION| && EXTENSION[j] == Ext(ExtByCode(ESC, 0).value, ESC);
      ExtensionTable(j);
      assert false;
    }
  }

  /** In decodable septets an escape is never followed by an escape. */
  lemma {:induction false} EscapesApart(septets: seq<byte>, i: nat)
    requires DecodeText(septets).Some? && i + 1 < |septets| && septets[i] == ESC
    ensures septets[i + 1] != ESC
    decreases |septets|
  {
    hide Utf8.Encode, Basic, ExtByCode;
    NoEscapedEscape();
    var code := NextSeptets(septets).value;
    if i >= code.used {
      EscapesApart(septets[code.used..], i - code.used);
    }
  }

  lemma {:induction false} TextBound(septets: seq<byte>)
    requires DecodeText(septets).Some?
    ensures |DecodeText(septets).value| <= 4 * |septets|
    decreases |septets|
  {
    if septets != [] { TextBound(septets[NextSeptets(septets).value.used..]); }
  }
}
