/** src/lib/cursor.ts: opaque base64url cursors over JSON, UTF-8 and percent-encoding. */
module Cursor {
  import opened JsText
  import opened Options
  import opened Lists
  import Uri
  import Base64
  import JsonText
  import JsonRoundTrip

  datatype CursorPayload = CursorPayload(ts: JsString, id: JsString)

  /** What decodeCursor throws: atob, decodeURIComponent and JSON.parse each have their own. */
  datatype CursorError = InvalidCharacter | UriMalformed | JsonSyntax

  datatype Result<+T> = Ok(value: T) | Err(error: CursorError)

  const TS := Lit("ts")
  const ID := Lit("id")

  /** The JSON value that a payload is: its properties, in the order the caller wrote them. */
  function AsJson(p: CursorPayload, tsFirst: bool): JsonText.Json {
    var ts, id := JsonText.Member(TS, JsonText.JString(p.ts)), JsonText.Member(ID, JsonText.JString(p.id));
    JsonText.JObject(if tsFirst then [ts, id] else [id, ts])
  }

  /** The base64 text before it is made URL-safe; None when encodeURIComponent throws. */
  function EncodeBase64(json: JsString): Option<JsString> {
    match Uri.EncodeUriComponent(json)
    case None => None
    case Some(percent) =>
      var binary := Uri.Unescape(percent);
      if forall i :: 0 <= i < |binary| ==> binary[i] < 256 then Some(Base64.Btoa(binary)) else None
  }

  function EncodeCursor(p: CursorPayload, tsFirst: bool): Option<JsString> {
    match EncodeBase64(JsonText.Stringify(AsJson(p, tsFirst)))
    case None => None
    case Some(base64) => Some(Base64.StripPads(Base64.MapUrlSafe(base64)))
  }

  /** The base64 text that decodeCursor hands to atob. */
  function Repadded(token: JsString): JsString {
    Base64.UnmapUrlSafe(token) + Base64.Pads(Base64.Missing(|token|))
  }

  function DecodeBase64(base64: JsString): Result<JsonText.Json> {
    match Base64.Atob(base64)
    case None => Err(InvalidCharacter)
    case Some(bytes) =>
      match Uri.DecodeUriComponent(Uri.Escape(bytes))
      case None => Err(UriMalformed)
      case Some(json) =>
        match JsonText.Parse(json)
        case None => Err(JsonSyntax)
        case Some(v) => Ok(v)
  }

  /** What decodeCursor returns or throws, for any text at all. */
  function Decoded(token: JsString): Result<JsonText.Json> {
    DecodeBase64(Repadded(token))
  }

  /** decodeCursor, with its padding loop. */
  method DecodeCursor(token: JsString) returns (r: Result<JsonText.Json>)
    ensures r == Decoded(token)
  {
    var base64 := Base64.UnmapUrlSafe(token);
    var added := 0;
    while |base64| % 4 != 0
      invariant added <= Base64.Missing(|token|)
      invariant base64 == Base64.UnmapUrlSafe(token) + Base64.Pads(added)
      decreases Base64.Missing(|token|) - added
    {
      assert Base64.Pads(added) + [Base64.PAD] == Base64.Pads(added + 1);
      base64 := base64 + [Base64.PAD];
      added := added + 1;
    }
    assert added == Base64.Missing(|token|);
    r := DecodeBase64(base64);
  }

  lemma PayloadProper(p: CursorPayload, tsFirst: bool)
    ensures JsonRoundTrip.Proper(AsJson(p, tsFirst))
  {
    assert TS[0] != ID[0];
  }

  lemma PayloadWellFormed(p: CursorPayload, tsFirst: bool)
    ensures WellFormed(JsonText.Stringify(AsJson(p, tsFirst)))
  {
    PayloadProper(p, tsFirst);
    JsonRoundTrip.StringifyWellFormed(AsJson(p, tsFirst));
  }

  /** The bytes that a payload's JSON text has in UTF-8. */
  ghost function PayloadBytes(p: CursorPayload, tsFirst: bool): seq<Byte> {
    PayloadWellFormed(p, tsFirst);
    Utf8Bytes(JsonText.Stringify(AsJson(p, tsFirst)))
  }

  /** The percent-encoding detour is UTF-8, so the middle of encodeCursor is base64 of UTF-8. */
  lemma {:induction false} EncodeBase64IsBtoa(json: JsString)
    requires WellFormed(json)
    ensures EncodeBase64(json) == Some(Base64.Btoa(Utf8Bytes(json)))
  {
    Uri.UnescapeEncodeIsUtf8(json);
  }

  /** encodeCursor never throws, and what it returns is the unpadded URL-safe base64 of the bytes. */
  lemma EncodeIsUrlSafeSymbols(p: CursorPayload, tsFirst: bool)
    ensures EncodeCursor(p, tsFirst) == Some(Base64.MapUrlSafe(Base64.Symbols(PayloadBytes(p, tsFirst))))
  {
    PayloadWellFormed(p, tsFirst);
    EncodeBase64IsBtoa(JsonText.Stringify(AsJson(p, tsFirst)));
    Base64.UrlSafeUnpadded(PayloadBytes(p, tsFirst));
  }

  /** Only URL-safe characters, and a length that base64 without padding can have. */
  lemma EncodedAlphabet(p: CursorPayload, tsFirst: bool)
    ensures EncodeCursor(p, tsFirst).Some?
    ensures var t := EncodeCursor(p, tsFirst).value;
      (forall i :: 0 <= i < |t| ==> Base64.IsUrlSafe(t[i])) && |t| % 4 != 1
  {
    EncodeIsUrlSafeSymbols(p, tsFirst);
    Base64.UrlSafeRoundTrip(Base64.Symbols(PayloadBytes(p, tsFirst)));
    Base64.SymbolsLength(PayloadBytes(p, tsFirst));
  }

  /** The padding loop puts back exactly the padding that encodeCursor took off. */
  lemma PaddingRestored(p: CursorPayload, tsFirst: bool)
    ensures EncodeCursor(p, tsFirst).Some?
    ensures EncodeBase64(JsonText.Stringify(AsJson(p, tsFirst))) == Some(Repadded(EncodeCursor(p, tsFirst).value))
  {
    var bytes := PayloadBytes(p, tsFirst);
    PayloadWellFormed(p, tsFirst);
    EncodeBase64IsBtoa(JsonText.Stringify(AsJson(p, tsFirst)));
    EncodeIsUrlSafeSymbols(p, tsFirst);
    Base64.UrlSafeRoundTrip(Base64.Symbols(bytes));
    assert Repadded(Base64.MapUrlSafe(Base64.Symbols(bytes))) == Base64.Btoa(bytes);
  }

  /** decodeCursor(encodeCursor(p)) is p, for any two JavaScript strings, lone surrogates included. */
  lemma CursorRoundTrip(p: CursorPayload, tsFirst: bool)
    ensures EncodeCursor(p, tsFirst).Some?
    ensures var ts := JsonText.Member(Lit("ts"), JsonText.JString(p.ts));
      var id := JsonText.Member(Lit("id"), JsonText.JString(p.id));
      Decoded(EncodeCursor(p, tsFirst).value) == Ok(JsonText.JObject(if tsFirst then [ts, id] else [id, ts]))
  {
    var json := JsonText.Stringify(AsJson(p, tsFirst));
    PaddingRestored(p, tsFirst);
    PayloadWellFormed(p, tsFirst);
    EncodeBase64IsBtoa(json);
    Base64.AtobBtoa(Utf8Bytes(json));
    Uri.DecodeEscapeIsUtf8Inverse(json);
    PayloadProper(p, tsFirst);
    JsonRoundTrip.ParseStringify(AsJson(p, tsFirst));
    assert TS == Lit("ts") && ID == Lit("id");
  }

  /** The bytes are the UTF-8 encoding of a text. */
  ghost predicate IsUtf8Of(bytes: seq<Byte>, text: JsString) { WellFormed(text) && Utf8Bytes(text) == bytes }

  /**
    * What decoding any token comes to: the value of the JSON text whose UTF-8 the base64 holds, or the
    * error of the first of the three steps that cannot be taken.
    */
  lemma {:induction false} DecodedIff(token: JsString)
    ensures match Base64.Atob(Repadded(token))
            case None => Decoded(token) == Err(InvalidCharacter)
            case Some(bytes) =>
              (Decoded(token) == Err(UriMalformed) <==> !exists text :: IsUtf8Of(bytes, text)) &&
              forall text :: IsUtf8Of(bytes, text) ==>
                Decoded(token) ==
                match JsonText.Parse(text) case None => Err(JsonSyntax) case Some(v) => Ok(v)
  {
    match Base64.Atob(Repadded(token))
    case None =>
    case Some(bytes) =>
      forall text ensures Uri.DecodeUriComponent(Uri.Escape(bytes)) == Some(text) <==> IsUtf8Of(bytes, text) {
        Uri.DecodeEscapeIff(bytes, text);
      }
  }

  /** A cursor that kept its padding decodes to the same payload as one that lost it. */
  lemma {:induction false} PaddedCursorDecodesAlike(token: JsString)
    requires |token| % 4 != 0
    ensures Decoded(token + Base64.Pads(Base64.Missing(|token|))) == Decoded(token)
  {
    var pads := Base64.Pads(Base64.Missing(|token|));
    assert Base64.UnmapUrlSafe(token + pads) == Base64.UnmapUrlSafe(token) + pads;
    assert Base64.Missing(|token + pads|) == 0;
    assert Repadded(token + pads) == Repadded(token);
  }

  /** Different payloads never share a cursor. */
  lemma CursorsIdentifyPayloads(p: CursorPayload, q: CursorPayload, tsFirst: bool)
    ensures EncodeCursor(p, tsFirst) == EncodeCursor(q, tsFirst) ==> p == q
  {
    if EncodeCursor(p, tsFirst) == EncodeCursor(q, tsFirst) {
      CursorRoundTrip(p, tsFirst);
      CursorRoundTrip(q, tsFirst);
    }
  }

  lemma NamesQuoted()
    ensures JsonText.Quote(TS) + [':' as int] == Lit("\"ts\":") && JsonText.Quote(ID) + [':' as int] == Lit("\"id\":")
  {
    QuotedPair('t' as int, 's' as int);
    QuotedPair('i' as int, 'd' as int);
    assert TS == ['t' as int, 's' as int] && ID == ['i' as int, 'd' as int];
  }

  lemma QuotedPair(u: Unit, v: Unit)
    requires 'a' as int <= u <= 'z' as int && 'a' as int <= v <= 'z' as int
    ensures JsonText.Quote([u, v]) == ['"' as int, u, v, '"' as int]
  {
    assert [u, v][1..] == [v] && [v][1..] == [];
    assert JsonText.QuoteBody([v]) == [v];
  }

  lemma Braced(x: JsString, y: JsString)
    ensures ['{' as int] + (x + ([',' as int] + y) + ['}' as int]) == Lit("{") + x + Lit(",") + y + Lit("}")
  {
    assert Lit("{") == ['{' as int] && Lit(",") == [',' as int] && Lit("}") == ['}' as int];
  }

  lemma TwoMembers(m: JsonText.Member, n: JsonText.Member, s: JsString, t: JsString)
    requires m.value == JsonText.JString(s) && n.value == JsonText.JString(t)
    ensures var x, y := JsonText.Quote(m.name) + [':' as int] + JsonText.Quote(s),
                        JsonText.Quote(n.name) + [':' as int] + JsonText.Quote(t);
      JsonText.Stringify(JsonText.JObject([m, n])) == Lit("{") + x + Lit(",") + y + Lit("}")
  {
    var v := JsonText.JObject([m, n]);
    var first, second := JsonText.Quote(m.name) + [':' as int], JsonText.Quote(n.name) + [':' as int];
    ConcatAssoc(JsonText.Quote(m.name), [':' as int], JsonText.Quote(s));
    ConcatAssoc(JsonText.Quote(n.name), [':' as int], JsonText.Quote(t));
    assert JsonText.StringifyFrom(v, 1) == second + JsonText.Quote(t);
    assert JsonText.StringifyFrom(v, 0) == first + JsonText.Quote(s) + ([',' as int] + JsonText.StringifyFrom(v, 1));
    Braced(first + JsonText.Quote(s), second + JsonText.Quote(t));
  }

  /** The text that goes into a cursor: both properties by name, in the order asked for. */
  lemma JsonWritten(p: CursorPayload, tsFirst: bool)
    ensures var ts, id := Lit("\"ts\":") + JsonText.Quote(p.ts), Lit("\"id\":") + JsonText.Quote(p.id);
      JsonText.Stringify(AsJson(p, tsFirst)) ==
      if tsFirst then Lit("{") + ts + Lit(",") + id + Lit("}") else Lit("{") + id + Lit(",") + ts + Lit("}")
  {
    var ms := AsJson(p, tsFirst).members;
    NamesQuoted();
    TwoMembers(ms[0], ms[1], if tsFirst then p.ts else p.id, if tsFirst then p.id else p.ts);
  }

  /** A cursor is the base64 of that text's UTF-8, with - for +, _ for / and no signs at the end. */
  lemma CursorWritten(p: CursorPayload, tsFirst: bool) returns (bytes: seq<Byte>, base64: JsString)
    ensures WellFormed(JsonText.Stringify(AsJson(p, tsFirst)))
    ensures bytes == Utf8Bytes(JsonText.Stringify(AsJson(p, tsFirst)))
    ensures |base64| == (4 * |bytes| + 2) / 3 && forall i :: 0 <= i < |base64| ==> Base64.IsSymbol(base64[i])
    ensures Base64.Read64(0, base64) == Base64.Shifted(Base64.Read256(0, bytes), |bytes|)
    ensures EncodeCursor(p, tsFirst).Some? && |EncodeCursor(p, tsFirst).value| == |base64|
    ensures forall i :: 0 <= i < |base64| ==>
              EncodeCursor(p, tsFirst).value[i] ==
              if base64[i] == '+' as int then '-' as int else if base64[i] == '/' as int then '_' as int else base64[i]
  {
    PayloadWellFormed(p, tsFirst);
    bytes := PayloadBytes(p, tsFirst);
    base64 := Base64.Symbols(bytes);
    EncodeIsUrlSafeSymbols(p, tsFirst);
    Base64.SymbolsLength(bytes);
    Base64.SymbolsValue(0, bytes);
  }
}
