/**
 * Post-processing of a receipt scan: the data-URL prefix put on the
 * uploaded image, and the normalisation of the model's JSON reply into an
 * invoice record (amount sanitising, `||` defaults, and the fallback record
 * when the reply cannot be read). The model call, `JSON.parse`, the clock
 * and the text of a floating-point number are parameters.
 */
module InvoiceScan {
  import opened Wrappers
  import opened JsText

  // ---------------------------------------------------------------------
  // The image URL

  const JpegPrefix := "data:image/jpeg;base64,"

  /** The image URL: a data URL is sent as is, bare base64 gets a JPEG data-URL prefix. */
  function ImageUrl(image: string): (r: string)
    ensures StartsWith(r, "data:")
    ensures StartsWith(image, "data:") ==> r == image
    ensures !StartsWith(image, "data:") ==> r == JpegPrefix + image
  {
    if StartsWith(image, "data:") then image
    else
      assert (JpegPrefix + image)[..5] == "data:";
      JpegPrefix + image
  }

  /** Prefixing twice is prefixing once. */
  lemma ImageUrlIdempotent(image: string)
    ensures ImageUrl(ImageUrl(image)) == ImageUrl(image)
  {
  }

  // ---------------------------------------------------------------------
  // JSON values and their JavaScript string form

  /** A value `JSON.parse` can return */
  datatype Json =
    | Null
    | Bool(b: bool)
    | Num(x: real)
    | Str(s: string)
    | Arr(items: seq<Json>)
    | Obj(fields: map<string, Json>)

  /** `parsed.name`: an object's own field, undefined for every other non-null value */
  function Field(parsed: Json, name: string): (r: Option<Json>)
    requires !parsed.Null?
    ensures r.Some? <==> parsed.Obj? && name in parsed.fields
  {
    if parsed.Obj? && name in parsed.fields then Some(parsed.fields[name]) else None
  }

  /** The operand of `||` is truthy: not undefined, null, false, 0 or "" */
  predicate Truthy(v: Option<Json>) {
    match v
    case None => false
    case Some(Null) => false
    case Some(Bool(b)) => b
    case Some(Num(x)) => x != 0.0
    case Some(Str(s)) => s != []
    case Some(_) => true
  }

  /** `a || fallback` */
  function Or(a: Option<Json>, fallback: Json): (r: Json)
    ensures Truthy(a) ==> Some(r) == a
    ensures !Truthy(a) ==> r == fallback
  {
    if Truthy(a) then a.value else fallback
  }

  /** `String(v)`, where `show` is the text of a number */
  function Text(v: Json, show: real -> string): (r: string)
    ensures v.Null? || v.Bool? || v.Obj? ==> forall k :: 0 <= k < |r| ==> !AmountChar(r[k])
    decreases v
  {
    match v
    case Null => "null"
    case Bool(b) => if b then "true" else "false"
    case Num(x) => show(x)
    case Str(s) => s
    case Obj(_) => "[object Object]"
    case Arr(items) => ItemsText(items, show)
  }

  /** `items.join(",")`: each item's text, a null item giving the empty text */
  function ItemsText(items: seq<Json>, show: real -> string): (r: string)
    ensures (forall k :: 0 <= k < |items| ==> items[k].Null?) ==>
      |r| == (if items == [] then 0 else |items| - 1) && forall k :: 0 <= k < |r| ==> r[k] == ','
    decreases items
  {
    if items == [] then ""
    else
      var last := items[|items| - 1];
      var lastText := if last.Null? then "" else Text(last, show);
      if |items| == 1 then lastText else ItemsText(items[..|items| - 1], show) + "," + lastText
  }

  // ---------------------------------------------------------------------
  // The amount

  /** The characters `[0-9.,]` the amount keeps */
  predicate AmountChar(c: char) {
    IsDigit(c) || c == '.' || c == ','
  }

  /** `s.replace(/[^0-9.,]/g, '')` */
  function KeepAmountChars(s: string): (r: string)
    ensures forall k :: 0 <= k < |r| ==> AmountChar(r[k])
  {
    if s == [] then []
    else
      var rest := KeepAmountChars(s[1..]);
      assert s == [s[0]] + s[1..];
      if AmountChar(s[0]) then [s[0]] + rest else rest
  }

  /** Text made only of digits, dots and commas is kept as it is. */
  lemma {:induction false} KeepAllAmountChars(s: string)
    requires forall k :: 0 <= k < |s| ==> AmountChar(s[k])
    ensures KeepAmountChars(s) == s
    decreases |s|
  {
    if s != [] {
      KeepAllAmountChars(s[1..]);
      assert s == [s[0]] + s[1..];
    }
  }

  /** The filter looks at the first character, then at the rest. */
  lemma KeepAmountCharsCons(c: char, rest: string)
    ensures KeepAmountChars([c] + rest) == (if AmountChar(c) then [c] else []) + KeepAmountChars(rest)
  {
    assert ([c] + rest)[0] == c && ([c] + rest)[1..] == rest;
  }

  /** Filtering distributes over concatenation: the kept characters stay in their order. */
  lemma {:induction false} KeepAmountCharsAppend(a: string, b: string)
    ensures KeepAmountChars(a + b) == KeepAmountChars(a) + KeepAmountChars(b)
    decreases |a|
  {
    if a != [] {
      var head := if AmountChar(a[0]) then [a[0]] else [];
      KeepAmountCharsAppend(a[1..], b);
      assert a + b == [a[0]] + (a[1..] + b);
      assert a == [a[0]] + a[1..];
      KeepAmountCharsCons(a[0], a[1..] + b);
      KeepAmountCharsCons(a[0], a[1..]);
    } else {
      assert a + b == b;
    }
  }

  /** Text without a digit, dot or comma (a currency code, say) sanitises to nothing. */
  lemma {:induction false} NoAmountCharsEmpty(s: string)
    requires forall k :: 0 <= k < |s| ==> !AmountChar(s[k])
    ensures KeepAmountChars(s) == []
  {
    if s != [] {
      NoAmountCharsEmpty(s[1..]);
    }
  }

  /** The amount text: the kept characters, with the first comma turned into a dot */
  function SanitiseAmount(text: string): (r: string)
    ensures forall k :: 0 <= k < |r| ==> AmountChar(r[k])
  {
    var kept := KeepAmountChars(text);
    match IndexOf(kept, ",", 0)
    case None => kept
    case Some(i) =>
      assert Replace(kept, ",", ".") == kept[..i] + "." + kept[i + 1..];
      Replace(kept, ",", ".")
  }

  /**
   * Only the first comma becomes a dot: the text around it is kept as it is,
   * later commas included; with no comma the kept text is the result.
   */
  lemma FirstCommaOnly(text: string, i: nat)
    requires i < |KeepAmountChars(text)| && KeepAmountChars(text)[i] == ','
    requires forall k :: 0 <= k < i ==> KeepAmountChars(text)[k] != ','
    ensures SanitiseAmount(text) == KeepAmountChars(text)[..i] + "." + KeepAmountChars(text)[i + 1..]
  {
    ReplaceFirstComma(KeepAmountChars(text), i);
  }

  /** `replace(",", ".")` rewrites the first comma of any text and keeps the rest. */
  lemma ReplaceFirstComma(kept: string, i: nat)
    requires i < |kept| && kept[i] == ','
    requires forall k :: 0 <= k < i ==> kept[k] != ','
    ensures Replace(kept, ",", ".") == kept[..i] + "." + kept[i + 1..]
  {
    assert OccursAt(kept, ",", i) by { assert kept[i..i + 1] == [kept[i]]; }
    forall k: nat | k < i
      ensures !OccursAt(kept, ",", k)
    {
      assert kept[k..k + 1] == [kept[k]];
    }
    ReplaceFirstOnly(kept, ",", ".", i);
  }

  /** With no comma among the kept characters, sanitising is just the filter. */
  lemma NoCommaKept(text: string)
    requires forall k :: 0 <= k < |KeepAmountChars(text)| ==> KeepAmountChars(text)[k] != ','
    ensures SanitiseAmount(text) == KeepAmountChars(text)
  {
    var kept := KeepAmountChars(text);
    forall k: nat
      ensures !OccursAt(kept, ",", k)
    {
      if k < |kept| {
        assert kept[k..k + 1] == [kept[k]];
      }
    }
  }

  /** `"EUR"` has none of the kept characters, so the amount becomes empty, not `"0"`. */
  lemma CurrencyCodeAmountEmpty()
    ensures SanitiseAmount("EUR") == ""
  {
    NoAmountCharsEmpty("EUR");
  }

  // ---------------------------------------------------------------------
  // The invoice record

  /** The result; fields other than the amount carry whatever JSON value the reply held. */
  datatype InvoiceData = InvoiceData(
    amount: string,
    description: Json,
    date: Json,
    currency: Json,
    vendor: Json,
    category: Json,
    confidence: Json)

  /** The record returned when the reply cannot be read */
  function Fallback(today: string): (r: InvoiceData)
    ensures r.amount == "0" && r.confidence == Num(0.0)
  {
    InvoiceData("0", Str("Could not read receipt"), Str(today), Str("EUR"), Str("Unknown"), Str("other"), Num(0.0))
  }

  /** The record built from a parsed, non-null reply */
  function Normalise(parsed: Json, show: real -> string, today: string): (r: InvoiceData)
    requires !parsed.Null?
    ensures forall k :: 0 <= k < |r.amount| ==> AmountChar(r.amount[k])
    ensures Truthy(Some(r.confidence))
    ensures Truthy(Field(parsed, "confidence")) ==> Some(r.confidence) == Field(parsed, "confidence")
    ensures !Truthy(Field(parsed, "confidence")) ==> r.confidence == Num(0.5)
  {
    InvoiceData(
      SanitiseAmount(Text(Or(Field(parsed, "amount"), Str("0")), show)),
      Or(Field(parsed, "description"), Str("Receipt scan")),
      Or(Field(parsed, "date"), Str(today)),
      Or(Field(parsed, "currency"), Str("EUR")),
      Or(Field(parsed, "vendor"), Str("Unknown")),
      Or(Field(parsed, "category"), Str("other")),
      Or(Field(parsed, "confidence"), Num(0.5)))
  }

  /**
   * `scanInvoice` after the model call: `content` is the reply's message
   * text (None when absent), `parse` is `JSON.parse` (None when it throws).
   * A `null` reply makes the field reads throw, which also lands in the
   * fallback.
   */
  function ScanResult(content: Option<string>, parse: string -> Option<Json>, show: real -> string, today: string): (r: InvoiceData)
    ensures r.confidence == Num(0.0) ==> r == Fallback(today)
  {
    var text := if content.None? || content.value == [] then "{}" else content.value;
    match parse(text)
    case None => Fallback(today)
    case Some(parsed) => if parsed.Null? then Fallback(today) else Normalise(parsed, show, today)
  }

  /** The record every default gives */
  function Defaults(today: string): InvoiceData {
    InvoiceData("0", Str("Receipt scan"), Str(today), Str("EUR"), Str("Unknown"), Str("other"), Num(0.5))
  }

  // ---------------------------------------------------------------------
  // Properties

  /** A reply without an amount, or with a falsy one, gives the amount `"0"`. */
  lemma MissingAmountIsZero(parsed: Json, show: real -> string, today: string)
    requires !parsed.Null? && !Truthy(Field(parsed, "amount"))
    ensures Normalise(parsed, show, today).amount == "0"
  {
    var t := Text(Str("0"), show);
    NoCommaKept(t);
  }

  /** Each field missing from the reply takes its default. */
  lemma FieldDefaults(parsed: Json, show: real -> string, today: string)
    requires !parsed.Null?
    ensures var r := Normalise(parsed, show, today);
      && (!Truthy(Field(parsed, "description")) ==> r.description == Str("Receipt scan"))
      && (!Truthy(Field(parsed, "date")) ==> r.date == Str(today))
      && (!Truthy(Field(parsed, "currency")) ==> r.currency == Str("EUR"))
      && (!Truthy(Field(parsed, "vendor")) ==> r.vendor == Str("Unknown"))
      && (!Truthy(Field(parsed, "category")) ==> r.category == Str("other"))
  {
  }

  /** A reported confidence of 0 is replaced by 0.5. */
  lemma ZeroConfidenceDefaults(fields: map<string, Json>, show: real -> string, today: string)
    requires "confidence" in fields && fields["confidence"] == Num(0.0)
    ensures Normalise(Obj(fields), show, today).confidence == Num(0.5)
  {
  }

  /** An empty object gives every default. */
  lemma EmptyObjectDefaults(show: real -> string, today: string)
    ensures Normalise(Obj(map[]), show, today) == Defaults(today)
  {
    MissingAmountIsZero(Obj(map[]), show, today);
  }

  /** A reply that is absent or empty is read as `"{}"`, so every default applies. */
  lemma EmptyContentDefaults(content: Option<string>, parse: string -> Option<Json>, show: real -> string, today: string)
    requires content.None? || content == Some("")
    requires parse("{}") == Some(Obj(map[]))
    ensures ScanResult(content, parse, show, today) == Defaults(today)
  {
    EmptyObjectDefaults(show, today);
  }

  /** Text `JSON.parse` rejects gives the fallback record. */
  lemma ParseFailureFallback(text: string, parse: string -> Option<Json>, show: real -> string, today: string)
    requires text != [] && parse(text).None?
    ensures var r := ScanResult(Some(text), parse, show, today);
      r == Fallback(today) && r.description == Str("Could not read receipt")
  {
  }

  /** A reply of `null` parses, but reading its fields throws: the fallback record. */
  lemma NullReplyFallback(text: string, parse: string -> Option<Json>, show: real -> string, today: string)
    requires text != [] && parse(text) == Some(Null)
    ensures ScanResult(Some(text), parse, show, today) == Fallback(today)
  {
  }

  /** An array of two non-null values reads as their texts joined by a comma. */
  lemma PairText(a: Json, b: Json, show: real -> string)
    requires !a.Null? && !b.Null?
    ensures Text(Arr([a, b]), show) == Text(a, show) + "," + Text(b, show)
  {
    assert [a, b][..1] == [a];
    assert ItemsText([a], show) == Text(a, show);
    assert ItemsText([a, b], show) == ItemsText([a], show) + "," + Text(b, show);
  }

  /** A decimal comma becomes a decimal point. */
  lemma DecimalCommaToPoint()
    ensures SanitiseAmount("12,50") == "12.50"
  {
    var t := "12,50";
    assert KeepAmountChars(t) == t;
    FirstCommaOnly(t, 2);
    assert t[..2] + "." + t[3..] == "12.50";
  }

  /** An amount array `[12, 50]` reads as `"12,50"` and becomes `"12.50"`. */
  lemma ArrayAmountJoined(show: real -> string, today: string)
    requires show(12.0) == "12" && show(50.0) == "50"
    ensures Normalise(Obj(map["amount" := Arr([Num(12.0), Num(50.0)])]), show, today).amount == "12.50"
  {
    var parsed := Obj(map["amount" := Arr([Num(12.0), Num(50.0)])]);
    assert Field(parsed, "amount") == Some(Arr([Num(12.0), Num(50.0)]));
    PairText(Num(12.0), Num(50.0), show);
    assert "12" + "," + "50" == "12,50";
    DecimalCommaToPoint();
  }
}
