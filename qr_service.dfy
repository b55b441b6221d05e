/** The QRIS dynamic-payload encoder: EMVCo Merchant-Presented Mode data objects
    (2-character ID, 2-digit decimal length, value), the three template objects
    26, 51 and 62, the tip branch, and the closing CRC object 63 whose value is
    CRC-16/IBM-3740 (polynomial 0x1021, initial value 0xFFFF, no reflection, no
    final XOR) over everything before it, its own "6304" included. */
module QRService {
  import opened Wrappers
  import opened Decimal
  import opened JsString
  import opened Sequences

  /** The flat record `toTLV` reads. A field is `Some(s)` when it holds a string
      and `None` when it holds a value without a `length` (undefined, null, a
      number, a boolean, a plain object), on which `padding` throws. Fields
      holding arrays or other objects with a `length` are not modelled. */
  datatype QRData = QRData(
    domain: Option<string>,
    mpan: Option<string>,
    mid: Option<string>,
    kriteria: Option<string>,
    nmid: Option<string>,
    mcc: Option<string>,
    currency: Option<string>,
    amount: Option<string>,
    withTip: Option<string>,
    tipAmount: Option<string>,
    tipPersen: Option<string>,
    country: Option<string>,
    outletName: Option<string>,
    address: Option<string>,
    postal: Option<string>,
    billing: Option<string>,
    terminalId: Option<string>)

  // ---------------------------------------------------------------------------
  // Data objects

  /** `s.length`: the number of UTF-16 code units (two for a code point above U+FFFF). */
  function Utf16Length(s: string): nat {
    if s == [] then 0 else Utf16Length(s[..|s| - 1]) + (if s[|s| - 1] as int >= 0x10000 then 2 else 1)
  }

  /** Every code point of s lies in the Basic Multilingual Plane. */
  predicate InBmp(s: string) {
    forall i :: 0 <= i < |s| ==> s[i] as int < 0x10000
  }

  lemma {:induction false} BmpLength(s: string)
    requires InBmp(s)
    ensures Utf16Length(s) == |s|
  {
    if s != [] {
      BmpLength(s[..|s| - 1]);
    }
  }

  /** `padding(data, size)`: the length of data in decimal, left-padded with '0' to size. */
  function Padding(data: string, size: nat): string {
    PadStart(NatToDecimal(Utf16Length(data)), size, '0')
  }

  /** `add(tag, data)`: one data object. */
  function Add(tag: string, data: string): string {
    tag + Padding(data, 2) + data
  }

  /** The length field is exactly two digits and reads back as the value's
      length when the value has at most 99 code units; padStart never truncates,
      so a longer value gets a longer length field. */
  lemma AddFraming(tag: string, data: string)
    ensures Utf16Length(data) <= 99 ==>
      |Padding(data, 2)| == 2 && AllDigits(Padding(data, 2))
      && DecimalValue(Padding(data, 2)) == Utf16Length(data)
      && |Add(tag, data)| == |tag| + 2 + |data|
    ensures Utf16Length(data) > 99 ==> |Padding(data, 2)| >= 3
  {
    var n := Utf16Length(data);
    if n <= 99 {
      Pad2RoundTrip(n);
    } else {
      DecimalLength(n, 2);
      assert Pow10(2) == 100;
    }
  }

  /** A data object as an (ID, value) pair. */
  datatype Tlv = Tlv(tag: string, value: string)

  /** The concatenated text of a list of data objects, appended one by one
      as `qr += add(...)` does. */
  function Serialize(objs: seq<Tlv>): string {
    if objs == [] then "" else Serialize(objs[..|objs| - 1]) + Add(objs[|objs| - 1].tag, objs[|objs| - 1].value)
  }

  /** Reads a text back into data objects: a 2-character ID, a 2-digit length n,
      then n characters of value; None when the text is not a whole number of objects. */
  function Parse(s: string): Option<seq<Tlv>>
    decreases |s|
  {
    if s == [] then Some([])
    else if |s| < 4 || !AllDigits(s[2..4]) then None
    else
      var n := DecimalValue(s[2..4]);
      if |s| < 4 + n then None
      else
        var rest :- Parse(s[4 + n..]);
        Some([Tlv(s[..2], s[4..4 + n])] + rest)
  }

  /** Objects whose IDs have two characters and whose values are BMP text of at
      most 99 characters: the objects the 2-digit framing can carry. */
  predicate Framable(objs: seq<Tlv>) {
    forall k :: 0 <= k < |objs| ==>
      |objs[k].tag| == 2 && |objs[k].value| <= 99 && InBmp(objs[k].value)
  }

  function Tags(objs: seq<Tlv>): (tags: seq<string>)
    ensures |tags| == |objs|
    ensures forall k :: 0 <= k < |objs| ==> tags[k] == objs[k].tag
  {
    if objs == [] then [] else [objs[0].tag] + Tags(objs[1..])
  }

  lemma SerializeSnoc(objs: seq<Tlv>, t: Tlv)
    ensures Serialize(objs + [t]) == Serialize(objs) + Add(t.tag, t.value)
  {
    assert (objs + [t])[..|objs|] == objs;
  }

  lemma SerializeOne(t: Tlv)
    ensures Serialize([t]) == Add(t.tag, t.value)
  {
    SerializeSnoc([], t);
    assert [] + [t] == [t];
  }

  lemma {:induction false} SerializeAppend(a: seq<Tlv>, b: seq<Tlv>)
    ensures Serialize(a + b) == Serialize(a) + Serialize(b)
    decreases |b|
  {
    if b == [] {
      AppendEmpty(a);
      AppendEmpty(Serialize(a));
    } else {
      var front, last := b[..|b| - 1], b[|b| - 1];
      SplitLast(b);
      Assoc(a, front, [last]);
      SerializeAppend(a, front);
      SerializeSnoc(a + front, last);
      SerializeSnoc(front, last);
      Assoc(Serialize(a), Serialize(front), Add(last.tag, last.value));
    }
  }

  lemma SerializeCons(t: Tlv, rest: seq<Tlv>)
    ensures Serialize([t] + rest) == Add(t.tag, t.value) + Serialize(rest)
  {
    SerializeAppend([t], rest);
    SerializeOne(t);
  }

  lemma ParseFront(s: string, t: string, len: string, v: string, rest: string)
    requires s == t + len + v + rest
    requires |t| == 2 && |len| == 2 && AllDigits(len) && DecimalValue(len) == |v|
    ensures Parse(s) == if Parse(rest).None? then None else Some([Tlv(t, v)] + Parse(rest).value)
  {
    assert s[2..4] == len;
    assert s[..2] == t;
    assert s[4..4 + |v|] == v;
    assert s[4 + |v|..] == rest;
  }

  /** Parsing one framable object in front of a text. */
  lemma ParseOne(t: string, v: string, rest: string)
    requires |t| == 2 && |v| <= 99 && InBmp(v)
    ensures Parse(Add(t, v) + rest) ==
      if Parse(rest).None? then None else Some([Tlv(t, v)] + Parse(rest).value)
  {
    BmpLength(v);
    AddFraming(t, v);
    ParseFront(Add(t, v) + rest, t, Padding(v, 2), v, rest);
  }

  /** Framing round trip: parsing the text of framable objects gives them back. */
  lemma {:induction false} ParseSerialize(objs: seq<Tlv>)
    requires Framable(objs)
    ensures Parse(Serialize(objs)) == Some(objs)
  {
    if objs != [] {
      assert Framable(objs[1..]) by {
        forall k | 0 <= k < |objs[1..]|
          ensures |objs[1..][k].tag| == 2 && |objs[1..][k].value| <= 99 && InBmp(objs[1..][k].value)
        {
          assert objs[1..][k] == objs[k + 1];
        }
      }
      ParseSerialize(objs[1..]);
      ParseOne(objs[0].tag, objs[0].value, Serialize(objs[1..]));
      assert [objs[0]] + objs[1..] == objs;
      SerializeCons(objs[0], objs[1..]);
    }
  }

  // ---------------------------------------------------------------------------
  // Templates

  /** `get26`: merchant account information, domestic scheme. */
  function Get26(d: QRData): Option<string> {
    var domain :- d.domain;
    var mpan :- d.mpan;
    var mid :- d.mid;
    var kriteria :- d.kriteria;
    Some(Add("00", domain) + Add("01", mpan) + Add("02", mid) + Add("03", kriteria))
  }

  /** `get51`: merchant account information, national merchant ID. */
  function Get51(d: QRData): Option<string> {
    var domain :- d.domain;
    var nmid :- d.nmid;
    var kriteria :- d.kriteria;
    Some(Add("00", domain) + Add("02", nmid) + Add("03", kriteria))
  }

  /** `get62Dinamis`: additional data for a dynamic code. */
  function Get62Dinamis(d: QRData): Option<string> {
    var billing :- d.billing;
    var terminalId :- d.terminalId;
    Some(Add("01", billing) + Add("07", terminalId))
  }

  /** The tip branch: the text it appends, or None when it throws.
      `toFixed2` stands for `parseFloat(v).toFixed(2)`. */
  function Tip(d: QRData, toFixed2: Option<string> -> string): Option<string> {
    match d.withTip
    case Some("00") => Some(Add("55", d.withTip.value))
    case Some("02") => Some(Add("56", toFixed2(d.tipAmount)))
    case Some("03") =>
      var tipPersen :- d.tipPersen;
      Some(Add("57", tipPersen))
    case _ => Some("")
  }

  const LowerHexDigits: string := "0123456789abcdef"
  const UpperHexDigits: string := "0123456789ABCDEF"

  /** `n.toString(16)`: lower-case hexadecimal, no leading zero. */
  function NatToHex(n: nat): string
    decreases n
  {
    if n < 16 then [LowerHexDigits[n]] else NatToHex(n / 16) + [LowerHexDigits[n % 16]]
  }

  /** Reference rendering: exactly four upper-case hexadecimal digits, most significant first. */
  function Hex4(n: nat): (r: string)
    requires n < 0x10000
    ensures |r| == 4 && forall i :: 0 <= i < 4 ==> r[i] in UpperHexDigits
  {
    [UpperHexDigits[n / 0x1000], UpperHexDigits[n / 0x100 % 16], UpperHexDigits[n / 0x10 % 16], UpperHexDigits[n % 16]]
  }

  /** `getCRC`: the checksum as `toString(16).toUpperCase().padStart(4, '0')`. */
  function GetCRC(qr: string): string {
    PadStart(ToUpperAscii(NatToHex(Crc16(Utf8Encode(qr)) as int)), 4, '0')
  }

  /** The objects `toTLV` appends before the CRC object, or None where it throws. */
  function PayloadBody(d: QRData, toFixed2: Option<string> -> string): Option<string> {
    var t26 :- Get26(d);
    var t51 :- Get51(d);
    var mcc :- d.mcc;
    var currency :- d.currency;
    var amount :- d.amount;
    var tip :- Tip(d, toFixed2);
    var country :- d.country;
    var outletName :- d.outletName;
    var address :- d.address;
    var postal :- d.postal;
    var t62 :- Get62Dinamis(d);
    Some(Add("00", "01") + Add("01", "12") + Add("26", t26) + Add("51", t51)
      + Add("52", mcc) + Add("53", currency) + Add("54", amount) + tip
      + Add("58", country) + Add("59", outletName) + Add("60", address) + Add("61", postal)
      + Add("62", t62))
  }

  /** `toTLV`: the whole payload, or None where the source throws. */
  function ToTLV(d: QRData, toFixed2: Option<string> -> string): Option<string> {
    var qr :- PayloadBody(d, toFixed2);
    Some(qr + Add("63", GetCRC(qr + "6304")))
  }

  // ---------------------------------------------------------------------------
  // The payload as a list of data objects (reference definition)

  function Objects26(domain: string, mpan: string, mid: string, kriteria: string): seq<Tlv> {
    [Tlv("00", domain), Tlv("01", mpan), Tlv("02", mid), Tlv("03", kriteria)]
  }

  function Objects51(domain: string, nmid: string, kriteria: string): seq<Tlv> {
    [Tlv("00", domain), Tlv("02", nmid), Tlv("03", kriteria)]
  }

  function Objects62(billing: string, terminalId: string): seq<Tlv> {
    [Tlv("01", billing), Tlv("07", terminalId)]
  }

  /** The tip object for a tip mode: 55, 56 or 57, or none for any other mode. */
  function TipObjects(d: QRData, toFixed2: Option<string> -> string): Option<seq<Tlv>> {
    if d.withTip == Some("00") then Some([Tlv("55", "00")])
    else if d.withTip == Some("02") then Some([Tlv("56", toFixed2(d.tipAmount))])
    else if d.withTip == Some("03") then
      (if d.tipPersen.None? then None else Some([Tlv("57", d.tipPersen.value)]))
    else Some([])
  }

  /** Some field the encoder reads is not a string. */
  predicate MissingField(d: QRData) {
    d.domain.None? || d.mpan.None? || d.mid.None? || d.kriteria.None? || d.nmid.None?
    || d.mcc.None? || d.currency.None? || d.amount.None? || d.country.None?
    || d.outletName.None? || d.address.None? || d.postal.None? || d.billing.None?
    || d.terminalId.None? || (d.withTip == Some("03") && d.tipPersen.None?)
  }

  /** The top-level objects before 63, in emission order. */
  function TopLevelObjects(d: QRData, toFixed2: Option<string> -> string): Option<seq<Tlv>>
    requires !MissingField(d)
  {
    var tip :- TipObjects(d, toFixed2);
    Some([Tlv("00", "01"), Tlv("01", "12"),
          Tlv("26", Serialize(Objects26(d.domain.value, d.mpan.value, d.mid.value, d.kriteria.value))),
          Tlv("51", Serialize(Objects51(d.domain.value, d.nmid.value, d.kriteria.value))),
          Tlv("52", d.mcc.value), Tlv("53", d.currency.value), Tlv("54", d.amount.value)]
         + tip
         + [Tlv("58", d.country.value), Tlv("59", d.outletName.value), Tlv("60", d.address.value),
            Tlv("61", d.postal.value),
            Tlv("62", Serialize(Objects62(d.billing.value, d.terminalId.value)))])
  }

  lemma Serialize2(a: Tlv, b: Tlv)
    ensures Serialize([a, b]) == Add(a.tag, a.value) + Add(b.tag, b.value)
  {
    SerializeOne(a);
    SerializeSnoc([a], b);
    assert [a] + [b] == [a, b];
  }

  lemma Serialize3(a: Tlv, b: Tlv, c: Tlv)
    ensures Serialize([a, b, c]) == Add(a.tag, a.value) + Add(b.tag, b.value) + Add(c.tag, c.value)
  {
    Serialize2(a, b);
    SerializeSnoc([a, b], c);
    assert [a, b] + [c] == [a, b, c];
  }

  lemma Serialize4(a: Tlv, b: Tlv, c: Tlv, e: Tlv)
    ensures Serialize([a, b, c, e]) == Add(a.tag, a.value) + Add(b.tag, b.value) + Add(c.tag, c.value) + Add(e.tag, e.value)
  {
    Serialize3(a, b, c);
    SerializeSnoc([a, b, c], e);
    assert [a, b, c] + [e] == [a, b, c, e];
  }

  /** The templates are exactly their sub-objects, in order. */
  lemma TemplatesAreObjectLists(d: QRData)
    requires !MissingField(d)
    ensures Get26(d) == Some(Serialize(Objects26(d.domain.value, d.mpan.value, d.mid.value, d.kriteria.value)))
    ensures Get51(d) == Some(Serialize(Objects51(d.domain.value, d.nmid.value, d.kriteria.value)))
    ensures Get62Dinamis(d) == Some(Serialize(Objects62(d.billing.value, d.terminalId.value)))
  {
    Serialize4(Tlv("00", d.domain.value), Tlv("01", d.mpan.value), Tlv("02", d.mid.value), Tlv("03", d.kriteria.value));
    Serialize3(Tlv("00", d.domain.value), Tlv("02", d.nmid.value), Tlv("03", d.kriteria.value));
    Serialize2(Tlv("01", d.billing.value), Tlv("07", d.terminalId.value));
  }

  /** The tip text is the tip object list, serialised. */
  lemma TipIsTipObjects(d: QRData, toFixed2: Option<string> -> string)
    ensures Tip(d, toFixed2).None? <==> TipObjects(d, toFixed2).None?
    ensures Tip(d, toFixed2).Some? ==> Tip(d, toFixed2).value == Serialize(TipObjects(d, toFixed2).value)
  {
    match TipObjects(d, toFixed2)
    case None =>
    case Some(objs) =>
      if objs != [] {
        SerializeOne(objs[0]);
      }
  }

  lemma HeadText(a: Tlv, b: Tlv, c: Tlv, e: Tlv, f: Tlv, g: Tlv, h: Tlv)
    ensures Serialize([a, b, c, e, f, g, h]) ==
      Add(a.tag, a.value) + Add(b.tag, b.value) + Add(c.tag, c.value) + Add(e.tag, e.value)
      + Add(f.tag, f.value) + Add(g.tag, g.value) + Add(h.tag, h.value)
  {
    Serialize4(a, b, c, e);
    SerializeSnoc([a, b, c, e], f);
    assert [a, b, c, e] + [f] == [a, b, c, e, f];
    SerializeSnoc([a, b, c, e, f], g);
    assert [a, b, c, e, f] + [g] == [a, b, c, e, f, g];
    SerializeSnoc([a, b, c, e, f, g], h);
    assert [a, b, c, e, f, g] + [h] == [a, b, c, e, f, g, h];
  }

  lemma TailText(k: Tlv, l: Tlv, m: Tlv, o: Tlv, q: Tlv)
    ensures Serialize([k, l, m, o, q]) ==
      Add(k.tag, k.value) + Add(l.tag, l.value) + Add(m.tag, m.value) + Add(o.tag, o.value) + Add(q.tag, q.value)
  {
    Serialize4(k, l, m, o);
    SerializeSnoc([k, l, m, o], q);
    assert [k, l, m, o] + [q] == [k, l, m, o, q];
  }

  /** The text of a head list, a tip list and a tail list, as one flat concatenation. */
  lemma SerializeLayout(a: Tlv, b: Tlv, c: Tlv, e: Tlv, f: Tlv, g: Tlv, h: Tlv, tip: seq<Tlv>,
                        k: Tlv, l: Tlv, m: Tlv, o: Tlv, q: Tlv)
    ensures Serialize([a, b, c, e, f, g, h] + tip + [k, l, m, o, q]) ==
      Add(a.tag, a.value) + Add(b.tag, b.value) + Add(c.tag, c.value) + Add(e.tag, e.value)
      + Add(f.tag, f.value) + Add(g.tag, g.value) + Add(h.tag, h.value) + Serialize(tip)
      + Add(k.tag, k.value) + Add(l.tag, l.value) + Add(m.tag, m.value) + Add(o.tag, o.value) + Add(q.tag, q.value)
  {
    var head, tail := [a, b, c, e, f, g, h], [k, l, m, o, q];
    HeadText(a, b, c, e, f, g, h);
    TailText(k, l, m, o, q);
    SerializeAppend(head, tip);
    SerializeAppend(head + tip, tail);
    var y := Serialize(head) + Serialize(tip);
    var kk, ll, mm, oo, qq := Add(k.tag, k.value), Add(l.tag, l.value), Add(m.tag, m.value), Add(o.tag, o.value), Add(q.tag, q.value);
    Assoc(y, kk + ll + mm + oo, qq);
    Assoc(y, kk + ll + mm, oo);
    Assoc(y, kk + ll, mm);
    Assoc(y, kk, ll);
  }

  /** The objects before 63 are exactly the reference list, in order. */
  lemma PayloadBodyIsObjects(d: QRData, toFixed2: Option<string> -> string)
    requires !MissingField(d)
    ensures TopLevelObjects(d, toFixed2).Some?
    ensures PayloadBody(d, toFixed2) == Some(Serialize(TopLevelObjects(d, toFixed2).value))
  {
    TemplatesAreObjectLists(d);
    TipIsTipObjects(d, toFixed2);
    var tip := TipObjects(d, toFixed2).value;
    SerializeLayout(Tlv("00", "01"), Tlv("01", "12"),
      Tlv("26", Serialize(Objects26(d.domain.value, d.mpan.value, d.mid.value, d.kriteria.value))),
      Tlv("51", Serialize(Objects51(d.domain.value, d.nmid.value, d.kriteria.value))),
      Tlv("52", d.mcc.value), Tlv("53", d.currency.value), Tlv("54", d.amount.value),
      tip,
      Tlv("58", d.country.value), Tlv("59", d.outletName.value), Tlv("60", d.address.value),
      Tlv("61", d.postal.value),
      Tlv("62", Serialize(Objects62(d.billing.value, d.terminalId.value))));
  }

  /** `toTLV` is the text of the reference object list followed by the CRC
      object, whose checksum covers everything before its own value. */
  lemma ToTLVLayout(d: QRData, toFixed2: Option<string> -> string)
    requires !MissingField(d)
    ensures TopLevelObjects(d, toFixed2).Some?
    ensures var p := Serialize(TopLevelObjects(d, toFixed2).value);
      ToTLV(d, toFixed2) == Some(p + "6304" + GetCRC(p + "6304"))
  {
    PayloadBodyIsObjects(d, toFixed2);
    var p := Serialize(TopLevelObjects(d, toFixed2).value);
    CrcObject(p + "6304");
    Assoc(p, "6304", GetCRC(p + "6304"));
  }

  /** The CRC object is "63", the length "04" and the four hex digits. */
  lemma CrcObject(qr: string)
    ensures Add("63", GetCRC(qr)) == "6304" + GetCRC(qr)
  {
    GetCRCShape(qr);
    HexObject(GetCRC(qr));
  }

  lemma HexObject(crc: string)
    requires |crc| == 4 && forall i :: 0 <= i < 4 ==> crc[i] in UpperHexDigits
    ensures Add("63", crc) == "6304" + crc
  {
    HexInBmp(crc);
    BmpLength(crc);
    assert NatToDecimal(4) == "4";
    assert Padding(crc, 2) == "04";
    assert "63" + "04" == "6304";
  }

  /** `toTLV` throws exactly when some field it reads is not a string; it
      never returns a partial payload. */
  lemma ToTLVThrowsIff(d: QRData, toFixed2: Option<string> -> string)
    ensures ToTLV(d, toFixed2).None? <==> MissingField(d)
  {
    if MissingField(d) {
      MissingFieldThrows(d, toFixed2);
    } else {
      ToTLVLayout(d, toFixed2);
    }
  }

  lemma MissingFieldThrows(d: QRData, toFixed2: Option<string> -> string)
    requires MissingField(d)
    ensures PayloadBody(d, toFixed2).None? && ToTLV(d, toFixed2).None?
  {
    if d.domain.None? || d.mpan.None? || d.mid.None? || d.kriteria.None? {
      assert Get26(d).None?;
    } else if d.nmid.None? {
      assert Get51(d).None?;
    } else if d.mcc.None? || d.currency.None? || d.amount.None? {
    } else if d.withTip == Some("03") && d.tipPersen.None? {
      assert Tip(d, toFixed2).None?;
    } else if d.country.None? || d.outletName.None? || d.address.None? || d.postal.None? {
    } else {
      assert Get62Dinamis(d).None?;
    }
  }

  /** The tag of the tip object for a tip mode, if any. */
  function TipTags(withTip: Option<string>): seq<string> {
    if withTip == Some("00") then ["55"]
    else if withTip == Some("02") then ["56"]
    else if withTip == Some("03") then ["57"]
    else []
  }

  /** Top-level objects come in the order 00, 01, 26, 51, 52, 53, 54, the
      optional tip object, 58, 59, 60, 61, 62; object 00 carries "01" and
      object 01 carries "12" (dynamic). */
  lemma TopLevelOrder(d: QRData, toFixed2: Option<string> -> string)
    requires !MissingField(d)
    ensures TopLevelObjects(d, toFixed2).Some?
    ensures var objs := TopLevelObjects(d, toFixed2).value;
      Tags(objs) == ["00", "01", "26", "51", "52", "53", "54"] + TipTags(d.withTip) + ["58", "59", "60", "61", "62"]
      && objs[0] == Tlv("00", "01") && objs[1] == Tlv("01", "12")
  {
    var objs := TopLevelObjects(d, toFixed2).value;
    var expected := ["00", "01", "26", "51", "52", "53", "54"] + TipTags(d.withTip) + ["58", "59", "60", "61", "62"];
    var tip := TipObjects(d, toFixed2).value;
    assert |tip| == |TipTags(d.withTip)|;
    assert forall k :: 0 <= k < |tip| ==> tip[k].tag == TipTags(d.withTip)[k];
    assert |Tags(objs)| == |expected|;
    assert forall k :: 0 <= k < |objs| ==> Tags(objs)[k] == expected[k];
  }

  /** The tip mode decides only the tip object: the objects before and after it
      do not depend on it. */
  lemma TipOnlyAffectsTipObject(d: QRData, withTip: Option<string>, toFixed2: Option<string> -> string)
    requires !MissingField(d) && !MissingField(d.(withTip := withTip))
    ensures TopLevelObjects(d, toFixed2).Some? && TopLevelObjects(d.(withTip := withTip), toFixed2).Some?
    ensures var a, b := TopLevelObjects(d, toFixed2).value, TopLevelObjects(d.(withTip := withTip), toFixed2).value;
      |a| == 12 + |TipObjects(d, toFixed2).value| && |b| == 12 + |TipObjects(d.(withTip := withTip), toFixed2).value|
      && a[..7] == b[..7] && a[|a| - 5..] == b[|b| - 5..]
  {
  }

  /** The whole payload reads back as the object list followed by the CRC
      object, when every object fits the 2-digit framing. */
  lemma PayloadParses(d: QRData, toFixed2: Option<string> -> string)
    requires !MissingField(d) && Framable(TopLevelObjects(d, toFixed2).value)
    ensures var objs := TopLevelObjects(d, toFixed2).value;
      var p := Serialize(objs);
      ToTLV(d, toFixed2).Some?
      && Parse(ToTLV(d, toFixed2).value) == Some(objs + [Tlv("63", GetCRC(p + "6304"))])
  {
    ToTLVLayout(d, toFixed2);
    var objs := TopLevelObjects(d, toFixed2).value;
    var p := Serialize(objs);
    GetCRCShape(p + "6304");
    SealedParses(objs, GetCRC(p + "6304"));
  }

  /** Objects followed by a CRC object holding four hex digits read back. */
  lemma SealedParses(objs: seq<Tlv>, crc: string)
    requires Framable(objs)
    requires |crc| == 4 && forall i :: 0 <= i < 4 ==> crc[i] in UpperHexDigits
    ensures Parse(Serialize(objs) + "6304" + crc) == Some(objs + [Tlv("63", crc)])
  {
    var p := Serialize(objs);
    HexObject(crc);
    SerializeSnoc(objs, Tlv("63", crc));
    Assoc(p, "6304", crc);
    HexInBmp(crc);
    FramableSnoc(objs, Tlv("63", crc));
    ParseSerialize(objs + [Tlv("63", crc)]);
  }

  lemma HexInBmp(crc: string)
    requires forall i :: 0 <= i < |crc| ==> crc[i] in UpperHexDigits
    ensures InBmp(crc)
  {
    forall i | 0 <= i < |crc|
      ensures crc[i] as int < 0x10000
    {
      assert crc[i] in UpperHexDigits;
    }
  }

  lemma FramableSnoc(objs: seq<Tlv>, t: Tlv)
    requires Framable(objs) && |t.tag| == 2 && |t.value| <= 99 && InBmp(t.value)
    ensures Framable(objs + [t])
  {
    var all := objs + [t];
    forall k | 0 <= k < |all|
      ensures |all[k].tag| == 2 && |all[k].value| <= 99 && InBmp(all[k].value)
    {
      if k < |objs| {
        assert all[k] == objs[k];
      }
    }
  }

  /** Each template's value reads back as its sub-objects, when they fit the framing. */
  lemma TemplatesParse(d: QRData)
    requires !MissingField(d)
    ensures var o := Objects26(d.domain.value, d.mpan.value, d.mid.value, d.kriteria.value);
      Framable(o) ==> Parse(Get26(d).value) == Some(o)
    ensures var o := Objects51(d.domain.value, d.nmid.value, d.kriteria.value);
      Framable(o) ==> Parse(Get51(d).value) == Some(o)
    ensures var o := Objects62(d.billing.value, d.terminalId.value);
      Framable(o) ==> Parse(Get62Dinamis(d).value) == Some(o)
  {
    TemplatesAreObjectLists(d);
    var o26 := Objects26(d.domain.value, d.mpan.value, d.mid.value, d.kriteria.value);
    var o51 := Objects51(d.domain.value, d.nmid.value, d.kriteria.value);
    var o62 := Objects62(d.billing.value, d.terminalId.value);
    if Framable(o26) {
      ParseSerialize(o26);
    }
    if Framable(o51) {
      ParseSerialize(o51);
    }
    if Framable(o62) {
      ParseSerialize(o62);
    }
  }

  // ---------------------------------------------------------------------------
  // CRC-16/IBM-3740

  type Byte = bv8

  function ByteOf(v: int): Byte
    requires 0 <= v < 0x100
  {
    v as Byte
  }

  /** The UTF-8 bytes of one code point, as `TextEncoder` writes them. */
  function Utf8Char(c: char): (bytes: seq<Byte>)
    ensures 1 <= |bytes| <= 4
    ensures (c as int < 0x80) <==> |bytes| == 1
    ensures c as int < 0x80 ==> bytes[0] == ByteOf(c as int)
  {
    var n := c as int;
    if n < 0x80 then [ByteOf(n)]
    else if n < 0x800 then [ByteOf(0xC0 + n / 0x40), ByteOf(0x80 + n % 0x40)]
    else if n < 0x10000 then [ByteOf(0xE0 + n / 0x1000), ByteOf(0x80 + (n / 0x40) % 0x40), ByteOf(0x80 + n % 0x40)]
    else [ByteOf(0xF0 + n / 0x40000), ByteOf(0x80 + (n / 0x1000) % 0x40), ByteOf(0x80 + (n / 0x40) % 0x40), ByteOf(0x80 + n % 0x40)]
  }

  /** `new TextEncoder().encode(s)`. */
  function Utf8Encode(s: string): seq<Byte> {
    if s == [] then [] else Utf8Encode(s[..|s| - 1]) + Utf8Char(s[|s| - 1])
  }

  lemma Utf8EncodeSnoc(s: string, c: char)
    ensures Utf8Encode(s + [c]) == Utf8Encode(s) + Utf8Char(c)
  {
    assert (s + [c])[..|s|] == s;
  }

  lemma {:induction false} Utf8EncodeAppend(a: string, b: string)
    ensures Utf8Encode(a + b) == Utf8Encode(a) + Utf8Encode(b)
    decreases |b|
  {
    if b == [] {
      AppendEmpty(a);
      AppendEmpty(Utf8Encode(a));
    } else {
      var front, last := b[..|b| - 1], b[|b| - 1];
      SplitLast(b);
      Assoc(a, front, [last]);
      Utf8EncodeAppend(a, front);
      Utf8EncodeSnoc(a + front, last);
      Utf8EncodeSnoc(front, last);
      Assoc(Utf8Encode(a), Utf8Encode(front), Utf8Char(last));
    }
  }

  predicate IsAscii(s: string) {
    forall i :: 0 <= i < |s| ==> s[i] as int < 0x80
  }

  /** ASCII text encodes to one byte per character, the character's code. */
  lemma {:induction false} AsciiEncode(s: string)
    requires IsAscii(s)
    ensures |Utf8Encode(s)| == |s|
    ensures forall i :: 0 <= i < |s| ==> Utf8Encode(s)[i] == ByteOf(s[i] as int)
  {
    if s != [] {
      AsciiEncode(s[..|s| - 1]);
    }
  }

  /** One shift of the register: shift left, XOR 0x1021 when the top bit was
      set, keep the low 16 bits; on the 32-bit integers JavaScript's bitwise
      operators use. */
  function BitStep(crc: bv32): (r: bv32)
    ensures r <= 0xFFFF
  {
    ((crc << 1) ^ (if crc & 0x8000 != 0 then 0x1021 else 0)) & 0xFFFF
  }

  /** k shifts of the register. */
  function Shifts(crc: bv32, k: nat): (r: bv32)
    ensures k > 0 ==> r <= 0xFFFF
  {
    if k == 0 then crc else BitStep(Shifts(crc, k - 1))
  }

  /** One byte: XOR it into the high byte, then 8 shifts. */
  function ByteStep(crc: bv32, b: Byte): (r: bv32)
    ensures r <= 0xFFFF
  {
    Shifts(crc ^ ((b as bv32) << 8), 8)
  }

  /** The register after feeding bytes to a register holding crc. */
  function Feed(crc: bv32, bytes: seq<Byte>): (r: bv32)
    ensures crc <= 0xFFFF ==> r <= 0xFFFF
    decreases |bytes|
  {
    if bytes == [] then crc else Feed(ByteStep(crc, bytes[0]), bytes[1..])
  }

  /** CRC-16/IBM-3740 of a byte string. */
  function Crc16(bytes: seq<Byte>): (r: bv32)
    ensures r <= 0xFFFF
  {
    Feed(0xFFFF, bytes)
  }

  lemma {:induction false} FeedAppend(crc: bv32, a: seq<Byte>, b: seq<Byte>)
    ensures Feed(crc, a + b) == Feed(Feed(crc, a), b)
    decreases |a|
  {
    if a == [] {
      assert a + b == b;
    } else {
      assert (a + b)[0] == a[0];
      assert (a + b)[1..] == a[1..] + b;
      FeedAppend(ByteStep(crc, a[0]), a[1..], b);
    }
  }

  /** `crc16IBM3740(str)`: the nested loop over the UTF-8 bytes of str. */
  method Crc16IBM3740(str: string) returns (crc: bv32)
    ensures crc == Crc16(Utf8Encode(str))
  {
    var bytes := Utf8Encode(str);
    crc := 0xFFFF;
    for k := 0 to |bytes|
      invariant crc == Feed(0xFFFF, bytes[..k])
    {
      var b := bytes[k];
      ghost var before := crc;
      crc := crc ^ ((b as bv32) << 8);
      ghost var mixed := crc;
      for i := 0 to 8
        invariant crc == Shifts(mixed, i)
      {
        ghost var prev := crc;
        if crc & 0x8000 != 0 {
          crc := (crc << 1) ^ 0x1021;
        } else {
          crc := crc << 1;
        }
        ShiftBranches(prev, crc);
        crc := crc & 0xFFFF;
      }
      ByteStepIsShifts(before, b, mixed);
      FeedSnoc(bytes[..k], b);
      assert bytes[..k + 1] == bytes[..k] + [b];
    }
    assert bytes[..|bytes|] == bytes;
  }

  /** Either branch of the source's `if`, followed by the mask, is one BitStep. */
  lemma ShiftBranches(prev: bv32, next: bv32)
    requires prev & 0x8000 != 0 ==> next == (prev << 1) ^ 0x1021
    requires prev & 0x8000 == 0 ==> next == prev << 1
    ensures next & 0xFFFF == BitStep(prev)
  {
    if prev & 0x8000 != 0 {
      HighBitShift(prev);
    } else {
      LowBitShift(prev);
    }
  }

  lemma HighBitShift(prev: bv32)
    requires prev & 0x8000 != 0
    ensures ((prev << 1) ^ 0x1021) & 0xFFFF == BitStep(prev)
  {
  }

  lemma LowBitShift(prev: bv32)
    requires prev & 0x8000 == 0
    ensures (prev << 1) & 0xFFFF == BitStep(prev)
  {
  }

  lemma ByteStepIsShifts(crc: bv32, b: Byte, mixed: bv32)
    requires mixed == crc ^ ((b as bv32) << 8)
    ensures Shifts(mixed, 8) == ByteStep(crc, b)
  {
  }

  lemma FeedSnoc(a: seq<Byte>, b: Byte)
    ensures Feed(0xFFFF, a + [b]) == ByteStep(Feed(0xFFFF, a), b)
  {
    FeedAppend(0xFFFF, a, [b]);
    assert [b][1..] == [];
  }

  /** Lower-case counterpart of Hex4, used to describe `toString(16)`. */
  function Lower4(n: nat): (r: string)
    requires n < 0x10000
    ensures |r| == 4
  {
    [LowerHexDigits[n / 0x1000], LowerHexDigits[n / 0x100 % 16], LowerHexDigits[n / 0x10 % 16], LowerHexDigits[n % 16]]
  }

  function HexWidth(n: nat): (w: nat)
    ensures 1 <= w <= 4
  {
    if n < 0x10 then 1 else if n < 0x100 then 2 else if n < 0x1000 then 3 else 4
  }

  /** `toString(16)` of a 16-bit value is the last HexWidth(n) digits of its four-digit rendering. */
  lemma NatToHexOfShort(n: nat)
    requires n < 0x10000
    ensures NatToHex(n) == Lower4(n)[4 - HexWidth(n)..]
  {
    if n < 0x10 {
      assert n % 16 == n;
    } else if n < 0x100 {
      NatToHexTwo(n);
    } else if n < 0x1000 {
      NatToHexThree(n);
    } else {
      NatToHexFour(n);
    }
  }

  /** One more hexadecimal digit at the end. */
  lemma NatToHexSnoc(q: nat, d: nat)
    requires 0 < q && d < 16
    ensures NatToHex(q * 16 + d) == NatToHex(q) + [LowerHexDigits[d]]
  {
    var n := q * 16 + d;
    assert n / 16 == q && n % 16 == d;
  }

  lemma HexDigitsOf(n: nat)
    requires n < 0x10000
    ensures n / 0x1000 < 16
    ensures n / 16 == (n / 0x100) * 16 + n / 0x10 % 16
    ensures n / 0x100 == (n / 0x1000) * 16 + n / 0x100 % 16
    ensures n == (n / 16) * 16 + n % 16
  {
    DivDiv16(n);
    DivDiv256(n);
  }

  lemma NatToHexTwo(n: nat)
    requires 0x10 <= n < 0x100
    ensures NatToHex(n) == Lower4(n)[2..]
  {
    HexDigitsOf(n);
    var q := n / 16;
    assert q < 16 && q % 16 == q;
    NatToHexSnoc(q, n % 16);
  }

  lemma NatToHexThree(n: nat)
    requires 0x100 <= n < 0x1000
    ensures NatToHex(n) == Lower4(n)[1..]
  {
    HexDigitsOf(n);
    var q, p := n / 16, n / 0x100;
    assert p < 16 && p % 16 == p;
    NatToHexSnoc(p, n / 0x10 % 16);
    NatToHexSnoc(q, n % 16);
  }

  lemma NatToHexFour(n: nat)
    requires 0x1000 <= n < 0x10000
    ensures NatToHex(n) == Lower4(n)
  {
    HexDigitsOf(n);
    var q, p, t := n / 16, n / 0x100, n / 0x1000;
    NatToHexSnoc(t, n / 0x100 % 16);
    NatToHexSnoc(p, n / 0x10 % 16);
    NatToHexSnoc(q, n % 16);
  }

  lemma DivDiv16(n: nat)
    ensures n / 16 / 16 == n / 0x100
    ensures n / 16 % 16 == n / 0x10 % 16
  {
    var q, r := n / 0x100, n % 0x100;
    assert n == q * 0x100 + r;
    assert n / 16 == q * 16 + r / 16;
  }

  lemma DivDiv256(n: nat)
    ensures n / 0x100 / 16 == n / 0x1000
  {
    var q, r := n / 0x1000, n % 0x1000;
    assert n == q * 0x1000 + r;
    assert n / 0x100 == q * 16 + r / 0x100;
  }

  /** The leading digits Hex4 adds in front of the short rendering are zeros. */
  lemma Hex4LeadingZeros(n: nat)
    requires n < 0x10000
    ensures forall i :: 0 <= i < 4 - HexWidth(n) ==> Hex4(n)[i] == '0'
  {
    assert UpperHexDigits[0] == '0';
    if n < 0x1000 {
      assert n / 0x1000 == 0;
      if n < 0x100 {
        assert n / 0x100 == 0;
        if n < 0x10 {
          assert n / 0x10 == 0;
        }
      }
    }
  }

  lemma UpperOfLowerHex(k: nat)
    requires k < 16
    ensures UpperChar(LowerHexDigits[k]) == UpperHexDigits[k]
  {
  }

  lemma Lower4ToUpper(n: nat, j: nat)
    requires n < 0x10000 && j <= 4
    ensures ToUpperAscii(Lower4(n)[j..]) == Hex4(n)[j..]
  {
    assert n / 0x1000 < 16;
    UpperOfLowerHex(n / 0x1000);
    UpperOfLowerHex(n / 0x100 % 16);
    UpperOfLowerHex(n / 0x10 % 16);
    UpperOfLowerHex(n % 16);
  }

  /** `toString(16).toUpperCase().padStart(4, '0')` of a 16-bit value is its
      four-digit upper-case hexadecimal rendering. */
  lemma PaddedHexIsHex4(n: nat)
    requires n < 0x10000
    ensures PadStart(ToUpperAscii(NatToHex(n)), 4, '0') == Hex4(n)
  {
    NatToHexOfShort(n);
    Hex4LeadingZeros(n);
    var j := 4 - HexWidth(n);
    Lower4ToUpper(n, j);
    var r := PadStart(Hex4(n)[j..], 4, '0');
    assert forall i :: 0 <= i < 4 ==> r[i] == Hex4(n)[i];
  }

  lemma GetCRCIsHex4(qr: string)
    ensures GetCRC(qr) == Hex4(Crc16(Utf8Encode(qr)) as int)
  {
    PaddedHexIsHex4(Crc16(Utf8Encode(qr)) as int);
  }

  /** `getCRC` always yields exactly four upper-case hexadecimal characters. */
  lemma GetCRCShape(qr: string)
    ensures |GetCRC(qr)| == 4
    ensures forall i :: 0 <= i < 4 ==> GetCRC(qr)[i] in UpperHexDigits
  {
    GetCRCIsHex4(qr);
  }

  /** The catalogue check input "123456789" as bytes. */
  const CheckBytes: seq<Byte> := [0x31, 0x32, 0x33, 0x34, 0x35, 0x36, 0x37, 0x38, 0x39]

  /** The catalogue values of CRC-16/IBM-3740: the empty input leaves the
      initial register, and "123456789" gives the check value 0x29B1. */
  lemma CrcCheckValues()
    ensures Crc16(Utf8Encode("")) == 0xFFFF
    ensures Crc16(Utf8Encode("123456789")) == 0x29B1
  {
    CheckInputBytes();
    CheckRegisters1();
    CheckRegisters2();
    CheckRegisters3();
    assert Feed(0xFFFF, CheckBytes[0..]) == Feed(0xC782, CheckBytes[1..]);
    assert Feed(0xC782, CheckBytes[1..]) == Feed(0x3DBA, CheckBytes[2..]);
    assert Feed(0x3DBA, CheckBytes[2..]) == Feed(0x5BCE, CheckBytes[3..]);
    assert Feed(0x5BCE, CheckBytes[3..]) == Feed(0x5349, CheckBytes[4..]);
    assert Feed(0x5349, CheckBytes[4..]) == Feed(0x4560, CheckBytes[5..]);
    assert Feed(0x4560, CheckBytes[5..]) == Feed(0x2EF4, CheckBytes[6..]);
    assert Feed(0x2EF4, CheckBytes[6..]) == Feed(0x7718, CheckBytes[7..]);
    assert Feed(0x7718, CheckBytes[7..]) == Feed(0xA12B, CheckBytes[8..]);
    assert Feed(0xA12B, CheckBytes[8..]) == Feed(0x29B1, CheckBytes[9..]);
  }

  lemma CheckInputBytes()
    ensures Utf8Encode("123456789") == CheckBytes
  {
    AsciiEncode("123456789");
  }

  lemma CheckRegisters1()
    ensures ByteStep(0xFFFF, 0x31) == 0xC782
    ensures ByteStep(0xC782, 0x32) == 0x3DBA
    ensures ByteStep(0x3DBA, 0x33) == 0x5BCE
  {
    ByteStepTrace(0xFFFF, 0x31, 0xCEFF, 0x8DDF, 0x0B9F, 0x173E, 0x2E7C, 0x5CF8, 0xB9F0, 0x63C1, 0xC782);
    ByteStepTrace(0xC782, 0x32, 0xF582, 0xFB25, 0xE66B, 0xDCF7, 0xA9CF, 0x43BF, 0x877E, 0x1EDD, 0x3DBA);
    ByteStepTrace(0x3DBA, 0x33, 0x0EBA, 0x1D74, 0x3AE8, 0x75D0, 0xEBA0, 0xC761, 0x9EE3, 0x2DE7, 0x5BCE);
  }

  lemma CheckRegisters2()
    ensures ByteStep(0x5BCE, 0x34) == 0x5349
    ensures ByteStep(0x5349, 0x35) == 0x4560
    ensures ByteStep(0x4560, 0x36) == 0x2EF4
  {
    ByteStepTrace(0x5BCE, 0x34, 0x6FCE, 0xDF9C, 0xAF19, 0x4E13, 0x9C26, 0x286D, 0x50DA, 0xA1B4, 0x5349);
    ByteStepTrace(0x5349, 0x35, 0x6649, 0xCC92, 0x8905, 0x022B, 0x0456, 0x08AC, 0x1158, 0x22B0, 0x4560);
    ByteStepTrace(0x4560, 0x36, 0x7360, 0xE6C0, 0xDDA1, 0xAB63, 0x46E7, 0x8DCE, 0x0BBD, 0x177A, 0x2EF4);
  }

  lemma CheckRegisters3()
    ensures ByteStep(0x2EF4, 0x37) == 0x7718
    ensures ByteStep(0x7718, 0x38) == 0xA12B
    ensures ByteStep(0xA12B, 0x39) == 0x29B1
  {
    ByteStepTrace(0x2EF4, 0x37, 0x19F4, 0x33E8, 0x67D0, 0xCFA0, 0x8F61, 0x0EE3, 0x1DC6, 0x3B8C, 0x7718);
    ByteStepTrace(0x7718, 0x38, 0x4F18, 0x9E30, 0x2C41, 0x5882, 0xB104, 0x7229, 0xE452, 0xD885, 0xA12B);
    ByteStepTrace(0xA12B, 0x39, 0x982B, 0x2077, 0x40EE, 0x81DC, 0x1399, 0x2732, 0x4E64, 0x9CC8, 0x29B1);
  }

  /** One byte step, bit by bit. */
  lemma ByteStepTrace(crc: bv32, b: Byte, m: bv32, r1: bv32, r2: bv32, r3: bv32, r4: bv32, r5: bv32, r6: bv32, r7: bv32, r8: bv32)
    requires m == crc ^ ((b as bv32) << 8)
    requires r1 == BitStep(m) && r2 == BitStep(r1) && r3 == BitStep(r2) && r4 == BitStep(r3)
    requires r5 == BitStep(r4) && r6 == BitStep(r5) && r7 == BitStep(r6) && r8 == BitStep(r7)
    ensures ByteStep(crc, b) == r8
  {
    assert Shifts(m, 1) == r1;
    assert Shifts(m, 2) == r2;
    assert Shifts(m, 3) == r3;
    assert Shifts(m, 4) == r4;
    assert Shifts(m, 5) == r5;
    assert Shifts(m, 6) == r6;
    assert Shifts(m, 7) == r7;
  }

  // ---------------------------------------------------------------------------
  // Error detection: changing any one byte changes the checksum

  /** The inverse of one shift on 16-bit registers: the low bit of the result
      tells whether 0x1021 (whose low bit is set) was XORed in. */
  function Unstep(r: bv32): bv32 {
    if r & 1 != 0 then ((r ^ 0x1021) >> 1) | 0x8000 else r >> 1
  }

  lemma UnstepHigh(a: bv32)
    requires a <= 0xFFFF && a & 0x8000 != 0
    ensures Unstep(((a << 1) ^ 0x1021) & 0xFFFF) == a
  {
  }

  lemma UnstepLow(a: bv32)
    requires a <= 0xFFFF && a & 0x8000 == 0
    ensures Unstep((a << 1) & 0xFFFF) == a
  {
  }

  lemma BitStepInverse(a: bv32)
    requires a <= 0xFFFF
    ensures Unstep(BitStep(a)) == a
  {
    if a & 0x8000 != 0 {
      HighBitShift(a);
      UnstepHigh(a);
    } else {
      LowBitShift(a);
      UnstepLow(a);
    }
  }

  lemma {:induction false} ShiftsInjective(a: bv32, b: bv32, k: nat)
    requires a <= 0xFFFF && b <= 0xFFFF && a != b
    ensures Shifts(a, k) != Shifts(b, k)
  {
    if k > 0 {
      ShiftsInjective(a, b, k - 1);
      var a', b' := Shifts(a, k - 1), Shifts(b, k - 1);
      assert a' <= 0xFFFF && b' <= 0xFFFF;
      BitStepInverse(a');
      BitStepInverse(b');
    }
  }

  lemma MixInjective(c: bv32, x: bv32, y: bv32)
    requires c <= 0xFFFF && x < 0x100 && y < 0x100 && x != y
    ensures c ^ (x << 8) != c ^ (y << 8)
    ensures c ^ (x << 8) <= 0xFFFF
  {
  }

  lemma MixBound(c: bv32, x: bv32)
    requires c <= 0xFFFF && x < 0x100
    ensures c ^ (x << 8) <= 0xFFFF
  {
  }

  lemma MixRegisters(c1: bv32, c2: bv32, x: bv32)
    requires c1 != c2
    ensures c1 ^ (x << 8) != c2 ^ (x << 8)
  {
  }

  lemma ByteWidens(x: Byte, y: Byte)
    ensures x as bv32 < 0x100
    ensures x != y ==> x as bv32 != y as bv32
  {
  }

  /** Different bytes fed into the same register give different registers. */
  lemma ByteStepInjectiveInByte(c: bv32, x: Byte, y: Byte)
    requires c <= 0xFFFF && x != y
    ensures ByteStep(c, x) != ByteStep(c, y)
  {
    ByteWidens(x, y);
    var mx, my := c ^ ((x as bv32) << 8), c ^ ((y as bv32) << 8);
    MixInjective(c, x as bv32, y as bv32);
    MixBound(c, y as bv32);
    ShiftsInjective(mx, my, 8);
    ByteStepIsShifts(c, x, mx);
    ByteStepIsShifts(c, y, my);
  }

  /** The same byte fed into different registers gives different registers. */
  lemma ByteStepInjectiveInRegister(c1: bv32, c2: bv32, b: Byte)
    requires c1 <= 0xFFFF && c2 <= 0xFFFF && c1 != c2
    ensures ByteStep(c1, b) != ByteStep(c2, b)
  {
    ByteWidens(b, b);
    var m1, m2 := c1 ^ ((b as bv32) << 8), c2 ^ ((b as bv32) << 8);
    MixRegisters(c1, c2, b as bv32);
    MixBound(c1, b as bv32);
    MixBound(c2, b as bv32);
    ShiftsInjective(m1, m2, 8);
    ByteStepIsShifts(c1, b, m1);
    ByteStepIsShifts(c2, b, m2);
  }

  lemma {:induction false} FeedInjective(c1: bv32, c2: bv32, bytes: seq<Byte>)
    requires c1 <= 0xFFFF && c2 <= 0xFFFF && c1 != c2
    ensures Feed(c1, bytes) != Feed(c2, bytes)
    decreases |bytes|
  {
    if bytes != [] {
      ByteStepInjectiveInRegister(c1, c2, bytes[0]);
      FeedInjective(ByteStep(c1, bytes[0]), ByteStep(c2, bytes[0]), bytes[1..]);
    }
  }

  /** CRC-16/IBM-3740 detects every single-byte substitution. */
  lemma CrcDetectsByteChange(prefix: seq<Byte>, x: Byte, y: Byte, suffix: seq<Byte>)
    requires x != y
    ensures Crc16(prefix + [x] + suffix) != Crc16(prefix + [y] + suffix)
  {
    var c := Feed(0xFFFF, prefix);
    FeedAppend(0xFFFF, prefix + [x], suffix);
    FeedAppend(0xFFFF, prefix + [y], suffix);
    FeedSnoc(prefix, x);
    FeedSnoc(prefix, y);
    ByteStepInjectiveInByte(c, x, y);
    FeedInjective(ByteStep(c, x), ByteStep(c, y), suffix);
  }
}
