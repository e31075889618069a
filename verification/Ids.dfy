/** Canonical identifiers: percent-encoded components between colons, and how to read them back. */
module Ids {
  import opened Wrappers
  import opened Text

  type Byte = b: int | 0 <= b < 256

  /******* UTF-8 *******/

  function Utf8Char(c: char): (bytes: seq<Byte>)
    ensures 1 <= |bytes| <= 4
  {
    var code := c as int;
    if code < 0x80 then [code]
    else if code < 0x800 then [0xC0 + code / 64, 0x80 + code % 64]
    else if code < 0x10000 then [0xE0 + code / 4096, 0x80 + code / 64 % 64, 0x80 + code % 64]
    else [0xF0 + code / 262144, 0x80 + code / 4096 % 64, 0x80 + code / 64 % 64, 0x80 + code % 64]
  }

  function Utf8(text: string): seq<Byte> {
    if text == "" then [] else Utf8Char(text[0]) + Utf8(text[1..])
  }

  // How many bytes a character has, by its first.
  function CharSize(first: Byte): nat {
    if first < 0x80 then 1 else if first < 0xE0 then 2 else if first < 0xF0 then 3 else 4
  }

  function CharCode(bytes: seq<Byte>): int
    requires 1 <= |bytes| <= 4
  {
    if |bytes| == 1 then bytes[0]
    else if |bytes| == 2 then (bytes[0] as int - 0xC0) * 64 + (bytes[1] as int - 0x80)
    else if |bytes| == 3 then (bytes[0] as int - 0xE0) * 4096 + (bytes[1] as int - 0x80) * 64 + (bytes[2] as int - 0x80)
    else (bytes[0] as int - 0xF0) * 262144 + (bytes[1] as int - 0x80) * 4096 + (bytes[2] as int - 0x80) * 64
         + (bytes[3] as int - 0x80)
  }

  predicate IsCharCode(code: int) {
    0 <= code < 0xD800 || 0xE000 <= code < 0x110000
  }

  function FromUtf8(bytes: seq<Byte>): Option<string>
    decreases |bytes|
  {
    if bytes == [] then Some("")
    else
      var size := CharSize(bytes[0]);
      if |bytes| < size || !IsCharCode(CharCode(bytes[..size])) then None
      else
        var rest := FromUtf8(bytes[size..]);
        if rest == None then None else Some([CharCode(bytes[..size]) as char] + rest.value)
  }

  lemma {:induction false} CharIsCode(c: char)
    ensures IsCharCode(c as int)
  {
  }

  lemma {:induction false} Utf8CharReadBack(c: char)
    ensures |Utf8Char(c)| == CharSize(Utf8Char(c)[0]) && CharCode(Utf8Char(c)) == c as int
  {
    var code := c as int;
    CharIsCode(c);
    Quotients(code);
  }

  // The digits of a code in base 64.
  lemma Quotients(code: int)
    requires 0 <= code < 0x110000
    ensures code / 64 * 64 + code % 64 == code
    ensures code / 4096 * 4096 + code / 64 % 64 * 64 + code % 64 == code
    ensures code / 262144 * 262144 + code / 4096 % 64 * 4096 + code / 64 % 64 * 64 + code % 64 == code
  {
    assert code / 64 / 64 == code / 4096;
    assert code / 4096 / 64 == code / 262144;
  }

  /** Round trip of UTF-8. */
  lemma {:induction false} Utf8RoundTrip(text: string)
    ensures FromUtf8(Utf8(text)) == Some(text)
  {
    if text != "" {
      var first, rest := Utf8Char(text[0]), Utf8(text[1..]);
      Utf8CharReadBack(text[0]);
      CharIsCode(text[0]);
      Utf8RoundTrip(text[1..]);
      assert (first + rest)[0] == first[0];
      assert (first + rest)[..|first|] == first && (first + rest)[|first|..] == rest;
      assert text == [text[0]] + text[1..];
    }
  }

  /******* Percent-encoding *******/

  // Unreserved characters, which stand for themselves.
  predicate IsUnreserved(b: int) {
    || 'A' as int <= b <= 'Z' as int || 'a' as int <= b <= 'z' as int || '0' as int <= b <= '9' as int
    || b == '-' as int || b == '.' as int || b == '_' as int || b == '~' as int
  }

  function HexDigit(d: nat): (c: char)
    requires d < 16
    ensures IsUnreserved(c as int)
  {
    if d < 10 then '0' + d as char else 'A' + (d - 10) as char
  }

  function HexValue(c: char): Option<nat> {
    if '0' <= c <= '9' then Some(c as int - '0' as int)
    else if 'A' <= c <= 'F' then Some(c as int - 'A' as int + 10)
    else None
  }

  function QuoteByte(b: Byte): (text: string)
    ensures text != ""
  {
    if IsUnreserved(b) then [b as char] else ['%', HexDigit(b / 16), HexDigit(b % 16)]
  }

  function Quote(bytes: seq<Byte>): string {
    if bytes == [] then "" else QuoteByte(bytes[0]) + Quote(bytes[1..])
  }

  function Unquote(text: string): Option<seq<Byte>>
    decreases |text|
  {
    if text == "" then Some([])
    else if text[0] == '%' then
      if |text| < 3 || HexValue(text[1]) == None || HexValue(text[2]) == None then None
      else
        var rest := Unquote(text[3..]);
        var b: Byte := HexValue(text[1]).value * 16 + HexValue(text[2]).value;
        if rest == None then None else Some([b] + rest.value)
    else if !IsUnreserved(text[0] as int) then None
    else
      var rest := Unquote(text[1..]);
      if rest == None then None else Some([text[0] as int] + rest.value)
  }

  lemma {:induction false} HexReadBack(d: nat)
    requires d < 16
    ensures HexValue(HexDigit(d)) == Some(d)
  {
  }

  /** Round trip of percent-encoding. */
  lemma {:induction false} QuoteRoundTrip(bytes: seq<Byte>)
    ensures Unquote(Quote(bytes)) == Some(bytes)
  {
    if bytes != [] {
      var b, rest := bytes[0], Quote(bytes[1..]);
      QuoteRoundTrip(bytes[1..]);
      HexReadBack(b / 16);
      HexReadBack(b % 16);
      var text := QuoteByte(b) + rest;
      assert text[|QuoteByte(b)|..] == rest;
      assert bytes == [b] + bytes[1..];
    }
  }

  // The characters of an encoded text.
  ghost predicate IsEncoded(text: string) {
    forall i :: 0 <= i < |text| ==> text[i] == '%' || IsUnreserved(text[i] as int)
  }

  /** An encoded text has no delimiter and no white space, so stripping it changes nothing. */
  lemma {:induction false} QuoteIsEncoded(bytes: seq<Byte>)
    ensures IsEncoded(Quote(bytes)) && Without(':', Quote(bytes))
    ensures bytes != [] ==> Quote(bytes) != ""
  {
    if bytes != [] {
      QuoteIsEncoded(bytes[1..]);
    }
  }

  // The bytes of a code by section 3 of RFC 3629: as few as possible, and the ones after the first from 0x80 to 0xBF.
  ghost predicate EncodesCode(bytes: seq<Byte>, code: int) {
    if code <= 0x7F then bytes == [code]
    else if code <= 0x7FF then
      && |bytes| == 2 && 0xC2 <= bytes[0] <= 0xDF && IsLater(bytes[1])
      && code == (bytes[0] as int - 0xC0) * 64 + LaterPart(bytes[1])
    else if code <= 0xFFFF then
      && |bytes| == 3 && 0xE0 <= bytes[0] <= 0xEF && IsLater(bytes[1]) && IsLater(bytes[2])
      && code == (bytes[0] as int - 0xE0) * 4096 + LaterPart(bytes[1]) * 64 + LaterPart(bytes[2])
    else
      && |bytes| == 4 && 0xF0 <= bytes[0] <= 0xF4 && IsLater(bytes[1]) && IsLater(bytes[2]) && IsLater(bytes[3])
      && code == (bytes[0] as int - 0xF0) * 262144 + LaterPart(bytes[1]) * 4096 + LaterPart(bytes[2]) * 64
                 + LaterPart(bytes[3])
  }

  predicate IsLater(b: int) {
    0x80 <= b <= 0xBF
  }

  function LaterPart(b: int): int {
    b - 0x80
  }

  lemma {:induction false} Utf8EncodesCode(c: char)
    ensures Utf8([c]) == Utf8Char(c) && EncodesCode(Utf8([c]), c as int)
  {
    CharIsCode(c);
    Quotients(c as int);
    assert Utf8([c]) == Utf8Char(c) + Utf8([c][1..]);
  }

  // Letters and digits of ASCII and the marks that the program declares safe.
  predicate IsSafe(c: char) {
    'A' <= c <= 'Z' || 'a' <= c <= 'z' || '0' <= c <= '9' || c in {'-', '.', '_', '~'}
  }

  /** A safe character stands for itself; of every other one, each byte is a percent sign and two hexadecimal
      digits, the capital ones. */
  lemma {:induction false} QuoteOfCharacter(c: char, i: nat)
    requires i < |Utf8([c])|
    ensures IsSafe(c) ==> Quote(Utf8([c])) == [c]
    ensures !IsSafe(c) ==>
              && |Quote(Utf8([c]))| == 3 * |Utf8([c])|
              && Quote(Utf8([c]))[3 * i] == '%'
              && Quote(Utf8([c]))[3 * i + 1] == "0123456789ABCDEF"[Utf8([c])[i] / 16]
              && Quote(Utf8([c]))[3 * i + 2] == "0123456789ABCDEF"[Utf8([c])[i] % 16]
  {
    Utf8EncodesCode(c);
    var bytes := Utf8([c]);
    if IsSafe(c) {
      assert bytes == [c as int] && Quote(bytes[1..]) == "";
    } else {
      forall k | 0 <= k < |bytes| ensures !IsUnreserved(bytes[k]) {}
      QuoteOfReserved(bytes, i);
    }
  }

  lemma {:induction false} QuoteOfReserved(bytes: seq<Byte>, i: nat)
    requires i < |bytes| && forall k :: 0 <= k < |bytes| ==> !IsUnreserved(bytes[k])
    ensures |Quote(bytes)| == 3 * |bytes| && Quote(bytes)[3 * i] == '%'
    ensures Quote(bytes)[3 * i + 1] == "0123456789ABCDEF"[bytes[i] / 16]
    ensures Quote(bytes)[3 * i + 2] == "0123456789ABCDEF"[bytes[i] % 16]
  {
    HexDigitIs(bytes[0] / 16);
    HexDigitIs(bytes[0] % 16);
    if i > 0 {
      QuoteOfReserved(bytes[1..], i - 1);
      AfterThree(QuoteByte(bytes[0]), Quote(bytes[1..]), 3 * (i - 1));
    } else if |bytes| > 1 {
      QuoteOfReserved(bytes[1..], 0);
    }
  }

  lemma {:induction false} AfterThree(first: string, rest: string, k: nat)
    requires |first| == 3 && k + 3 <= |rest|
    ensures (first + rest)[k + 3] == rest[k] && (first + rest)[k + 4] == rest[k + 1]
            && (first + rest)[k + 5] == rest[k + 2]
  {
  }

  lemma {:induction false} HexDigitIs(d: nat)
    requires d < 16
    ensures HexDigit(d) == "0123456789ABCDEF"[d]
  {
  }

  /******* Components *******/

  datatype IdError = BlankComponent | NotADocumentId

  // _component: the encoded form of a stripped, non-blank string.
  function Component(value: string): Result<string, IdError> {
    var normalized := Strip(value);
    if normalized == "" then Err(BlankComponent) else Ok(Quote(Utf8(normalized)))
  }

  function FromComponent(text: string): Option<string> {
    var bytes := Unquote(text);
    if bytes == None then None else FromUtf8(bytes.value)
  }

  lemma {:induction false} ComponentRoundTrip(value: string)
    requires Component(value).Ok?
    ensures FromComponent(Component(value).value) == Some(Strip(value))
    ensures IsEncoded(Component(value).value) && Without(':', Component(value).value) && Component(value).value != ""
  {
    QuoteRoundTrip(Utf8(Strip(value)));
    Utf8RoundTrip(Strip(value));
    QuoteIsEncoded(Utf8(Strip(value)));
  }

  /******* Document and chunk identifiers *******/

  const DOCUMENT_PREFIX := "v1:document:"

  predicate StartsWith(text: string, prefix: string) {
    prefix <= text
  }

  function DocumentId(dataset: string, sourceId: string): Result<string, IdError> {
    var first, second := Component(dataset), Component(sourceId);
    if first.Err? then Err(first.error)
    else if second.Err? then Err(second.error)
    else Ok(Join(":", ["v1", "document", first.value, second.value]))
  }

  // `hash` is the fixed-length digest prefix of the chunk's content.
  function ChunkId(documentId: string, index: nat, hash: string): Result<string, IdError> {
    if !StartsWith(documentId, DOCUMENT_PREFIX) then Err(NotADocumentId)
    else
      var document := Component(documentId);
      if document.Err? then Err(document.error)
      else Ok(Join(":", ["v1", "chunk", document.value, Decimal(index), hash]))
  }

  function ReadDocumentId(id: string): Option<(string, string)> {
    var parts := Split(':', id);
    if |parts| != 4 || parts[0] != "v1" || parts[1] != "document" then None
    else
      var dataset, sourceId := FromComponent(parts[2]), FromComponent(parts[3]);
      if dataset == None || sourceId == None then None else Some((dataset.value, sourceId.value))
  }

  function ReadChunkId(id: string): Option<(string, nat, string)> {
    var parts := Split(':', id);
    if |parts| != 5 || parts[0] != "v1" || parts[1] != "chunk" || !IsDecimal(parts[3]) then None
    else
      var document := FromComponent(parts[2]);
      if document == None then None else Some((document.value, Value(parts[3]), parts[4]))
  }

  predicate IsDecimal(text: string) {
    text != "" && AllDigits(text)
  }

  /** A document ID determines both components, as they are after stripping. */
  lemma {:induction false} DocumentIdRoundTrip(dataset: string, sourceId: string)
    ensures DocumentId(dataset, sourceId).Err? <==> Strip(dataset) == "" || Strip(sourceId) == ""
    ensures DocumentId(dataset, sourceId).Ok? ==>
              ReadDocumentId(DocumentId(dataset, sourceId).value) == Some((Strip(dataset), Strip(sourceId)))
    ensures DocumentId(dataset, sourceId)
            == if Strip(dataset) == "" || Strip(sourceId) == "" then Err(BlankComponent)
               else Ok("v1:document:" + (Quote(Utf8(Strip(dataset))) + ":" + Quote(Utf8(Strip(sourceId)))))
  {
    if DocumentId(dataset, sourceId).Ok? {
      DocumentIdText(Component(dataset).value, Component(sourceId).value);
      ComponentRoundTrip(dataset);
      ComponentRoundTrip(sourceId);
      SplitDocumentId(Component(dataset).value, Component(sourceId).value);
    }
  }

  lemma {:induction false} SplitDocumentId(first: string, second: string)
    requires Without(':', first) && Without(':', second)
    ensures Split(':', Join(":", ["v1", "document", first, second])) == ["v1", "document", first, second]
  {
    var parts := ["v1", "document", first, second];
    SplitOfJoin(':', parts);
    assert Join([':'], parts) == Join(":", parts);
  }

  lemma {:induction false} SplitChunkId(document: string, index: string, hash: string)
    requires Without(':', document) && Without(':', index) && Without(':', hash)
    ensures Split(':', Join(":", ["v1", "chunk", document, index, hash])) == ["v1", "chunk", document, index, hash]
  {
    var parts := ["v1", "chunk", document, index, hash];
    SplitOfJoin(':', parts);
    assert Join([':'], parts) == Join(":", parts);
  }

  /** A chunk ID determines its document ID, as it is after stripping, its index and the hash of its content. */
  lemma {:induction false} ChunkIdRoundTrip(documentId: string, index: nat, hash: string)
    requires Without(':', hash)
    ensures ChunkId(documentId, index, hash)
            == if "v1:document:" <= documentId
               then Ok("v1:chunk:" + (Quote(Utf8(Strip(documentId))) + ":" + (Decimal(index) + ":" + hash)))
               else Err(NotADocumentId)
    ensures ChunkId(documentId, index, hash).Ok? ==>
              ReadChunkId(ChunkId(documentId, index, hash).value) == Some((Strip(documentId), index, hash))
  {
    if "v1:document:" <= documentId {
      ChunkIdIsMade(documentId, index, hash);
      ChunkIdText(Component(documentId).value, Decimal(index), hash);
      ChunkIdIsRead(documentId, index, hash);
    }
  }

  lemma {:induction false} ChunkIdIsRead(documentId: string, index: nat, hash: string)
    requires Without(':', hash) && ChunkId(documentId, index, hash).Ok?
    ensures ReadChunkId(ChunkId(documentId, index, hash).value) == Some((Strip(documentId), index, hash))
  {
    ComponentRoundTrip(documentId);
    DecimalRoundTrip(index);
    assert AllDigits(Decimal(index));
    SplitChunkId(Component(documentId).value, Decimal(index), hash);
  }

  lemma {:induction false} ChunkIdText(document: string, index: string, hash: string)
    ensures Join(":", ["v1", "chunk", document, index, hash]) == "v1:chunk:" + (document + ":" + (index + ":" + hash))
  {
    var parts := ["v1", "chunk", document, index, hash];
    assert parts[1..] == ["chunk", document, index, hash];
    assert ["chunk", document, index, hash][1..] == [document, index, hash];
    assert [document, index, hash][1..] == [index, hash] && [index, hash][1..] == [hash];
    assert Join(":", [index, hash]) == index + ":" + hash;
    assert Join(":", [document, index, hash]) == document + ":" + (index + ":" + hash);
    assert "v1" + ":" + ("chunk" + ":" + (document + ":" + (index + ":" + hash)))
           == "v1" + ":" + "chunk" + ":" + (document + ":" + (index + ":" + hash));
    assert "v1" + ":" + "chunk" + ":" == "v1:chunk:";
  }

  lemma {:induction false} ChunkIdIsMade(documentId: string, index: nat, hash: string)
    requires StartsWith(documentId, DOCUMENT_PREFIX)
    ensures ChunkId(documentId, index, hash).Ok?
  {
    assert documentId[0] == DOCUMENT_PREFIX[0] == 'v';
    StripIsNotEmpty(documentId);
  }

  lemma {:induction false} StripIsNotEmpty(text: string)
    requires text != "" && !IsSpace(text[0])
    ensures Strip(text) != ""
    decreases |text|
  {
    if |text| > 1 && IsSpace(text[|text| - 1]) {
      StripIsNotEmpty(text[..|text| - 1]);
    }
  }

  ghost predicate HasNoSpace(text: string) {
    forall i :: 0 <= i < |text| ==> !IsSpace(text[i])
  }

  lemma {:induction false} EncodedHasNoSpace(text: string)
    requires IsEncoded(text)
    ensures HasNoSpace(text)
  {
  }

  /** A canonical document ID is a document ID for its chunks, and stripping it changes nothing. */
  lemma {:induction false} CanonicalDocumentIdIsStripped(dataset: string, sourceId: string)
    requires DocumentId(dataset, sourceId).Ok?
    ensures var id := DocumentId(dataset, sourceId).value;
            StartsWith(id, DOCUMENT_PREFIX) && HasNoSpace(id) && Strip(id) == id
  {
    var first, second := Component(dataset).value, Component(sourceId).value;
    ComponentRoundTrip(dataset);
    ComponentRoundTrip(sourceId);
    EncodedHasNoSpace(first);
    EncodedHasNoSpace(second);
    DocumentIdText(first, second);
    NoSpaceInTwo(first, second);
    NoSpaceMeansStripped(DOCUMENT_PREFIX + (first + ":" + second));
  }

  lemma {:induction false} NoSpaceInTwo(first: string, second: string)
    requires HasNoSpace(first) && HasNoSpace(second)
    ensures HasNoSpace(DOCUMENT_PREFIX + (first + ":" + second))
  {
    assert HasNoSpace(DOCUMENT_PREFIX) && HasNoSpace(":");
    assert HasNoSpace(first + ":" + second);
  }

  lemma {:induction false} NoSpaceMeansStripped(text: string)
    requires HasNoSpace(text)
    ensures Strip(text) == text
  {
  }

  lemma {:induction false} DocumentIdText(first: string, second: string)
    ensures Join(":", ["v1", "document", first, second]) == DOCUMENT_PREFIX + (first + ":" + second)
  {
    var parts := ["v1", "document", first, second];
    assert parts[1..] == ["document", first, second];
    assert ["document", first, second][1..] == [first, second];
    assert [first, second][1..] == [second];
    assert Join(":", [first, second]) == first + ":" + second;
    assert Join(":", ["document", first, second]) == "document" + ":" + (first + ":" + second);
    assert Join(":", parts) == "v1" + ":" + ("document" + ":" + (first + ":" + second));
    assert "v1" + ":" + ("document" + ":" + (first + ":" + second))
           == "v1" + ":" + "document" + ":" + (first + ":" + second);
    assert "v1" + ":" + "document" + ":" == DOCUMENT_PREFIX;
  }

  /** Main result: chunks of any two accepted document IDs share an ID exactly when the stripped document IDs, the
      indices and the content hashes are all the same. */
  lemma {:induction false} AcceptedChunkIdsAreEqualIff(documentId: string, index: nat, hash: string,
                                                      documentId': string, index': nat, hash': string)
    requires "v1:document:" <= documentId && "v1:document:" <= documentId'
    requires Without(':', hash) && Without(':', hash')
    ensures ChunkId(documentId, index, hash).Ok? && ChunkId(documentId', index', hash').Ok?
    ensures ChunkId(documentId, index, hash) == ChunkId(documentId', index', hash')
            <==> Strip(documentId) == Strip(documentId') && index == index' && hash == hash'
  {
    ChunkIdRoundTrip(documentId, index, hash);
    ChunkIdRoundTrip(documentId', index', hash');
  }

  /** Chunks of documents have one ID exactly when document, index and content hash are all the same. */
  lemma {:induction false} ChunkIdsAreEqualIff(dataset: string, sourceId: string, index: nat, hash: string,
                                              dataset': string, sourceId': string, index': nat, hash': string)
    requires DocumentId(dataset, sourceId).Ok? && DocumentId(dataset', sourceId').Ok?
    requires Without(':', hash) && Without(':', hash')
    ensures ChunkId(DocumentId(dataset, sourceId).value, index, hash)
            == ChunkId(DocumentId(dataset', sourceId').value, index', hash')
            <==> Strip(dataset) == Strip(dataset') && Strip(sourceId) == Strip(sourceId') && index == index'
                 && hash == hash'
  {
    DocumentIdRoundTrip(dataset, sourceId);
    DocumentIdRoundTrip(dataset', sourceId');
    CanonicalDocumentIdIsStripped(dataset, sourceId);
    CanonicalDocumentIdIsStripped(dataset', sourceId');
    AcceptedChunkIdsAreEqualIff(DocumentId(dataset, sourceId).value, index, hash,
                                DocumentId(dataset', sourceId').value, index', hash');
  }

  /** So two different document IDs that are both accepted may share their chunks' IDs, when one is not canonical. */
  lemma {:induction false} SpaceAfterDocumentIdIsLost(hash: string)
    requires Without(':', hash)
    ensures "v1:document:a:b " != "v1:document:a:b"
    ensures ChunkId("v1:document:a:b", 0, hash).Ok?
    ensures ChunkId("v1:document:a:b ", 0, hash) == ChunkId("v1:document:a:b", 0, hash)
  {
    var id := "v1:document:a:b";
    assert |id + " "| != |id|;
    assert (id + " ")[..|id|] == id;
    assert id + " " == "v1:document:a:b ";
    assert Strip(id + " ") == Strip(id);
    assert DOCUMENT_PREFIX <= id && DOCUMENT_PREFIX <= id + " ";
    AcceptedChunkIdsAreEqualIff(id + " ", 0, hash, id, 0, hash);
  }

  /******* Entity names *******/

  // `punctuation` tells the characters of the punctuation categories of Unicode; case is taken as folded.
  predicate IsTrimmed(punctuation: char -> bool, c: char) {
    IsSpace(c) || punctuation(c)
  }

  // Without the white space and punctuation at both ends.
  function Trim(punctuation: char -> bool, text: string): string
    decreases |text|
  {
    if text == "" then ""
    else if IsTrimmed(punctuation, text[0]) then Trim(punctuation, text[1..])
    else if IsTrimmed(punctuation, text[|text| - 1]) then Trim(punctuation, text[..|text| - 1])
    else text
  }

  // Single spaces between words.
  function Collapse(text: string): string {
    Join(" ", Words(text))
  }

  function EntityName(punctuation: char -> bool, name: string): Result<string, IdError> {
    var trimmed := Trim(punctuation, Collapse(name));
    if trimmed == "" then Err(BlankComponent) else Ok(trimmed)
  }

  lemma {:induction false} TrimFront(punctuation: char -> bool, text: string, n: nat)
    requires n <= |text| && forall i :: 0 <= i < n ==> IsTrimmed(punctuation, text[i])
    ensures Trim(punctuation, text) == Trim(punctuation, text[n..])
    decreases n
  {
    if n == 0 {
      assert text[0..] == text;
    } else {
      TrimFront(punctuation, text[1..], n - 1);
      assert text[1..][n - 1..] == text[n..];
    }
  }

  lemma {:induction false} TrimLast(punctuation: char -> bool, text: string)
    requires text != "" && IsTrimmed(punctuation, text[|text| - 1])
    ensures Trim(punctuation, text) == Trim(punctuation, text[..|text| - 1])
    decreases |text|
  {
    var init := text[..|text| - 1];
    if IsTrimmed(punctuation, text[0]) && |text| > 1 {
      TrimLast(punctuation, text[1..]);
      assert text[1..][..|text| - 2] == init[1..];
    }
  }

  lemma {:induction false} TrimBack(punctuation: char -> bool, text: string, n: nat)
    requires n <= |text| && forall i :: n <= i < |text| ==> IsTrimmed(punctuation, text[i])
    ensures Trim(punctuation, text) == Trim(punctuation, text[..n])
    decreases |text| - n
  {
    if n == |text| {
      assert text[..n] == text;
    } else {
      TrimLast(punctuation, text);
      TrimBack(punctuation, text[..|text| - 1], n);
      assert text[..|text| - 1][..n] == text[..n];
    }
  }

  lemma {:induction false} TrimOfStrip(punctuation: char -> bool, text: string)
    ensures Trim(punctuation, Strip(text)) == Trim(punctuation, text)
    decreases |text|
  {
    if text != "" {
      if IsSpace(text[0]) {
        TrimOfStrip(punctuation, text[1..]);
      } else if IsSpace(text[|text| - 1]) {
        TrimOfStrip(punctuation, text[..|text| - 1]);
        TrimLast(punctuation, text);
      }
    }
  }

  // Nothing is left to trim at either end.
  predicate HasCleanEnds(punctuation: char -> bool, text: string) {
    text == "" || (!IsTrimmed(punctuation, text[0]) && !IsTrimmed(punctuation, text[|text| - 1]))
  }

  lemma {:induction false} TrimIsClean(punctuation: char -> bool, text: string)
    ensures HasCleanEnds(punctuation, Trim(punctuation, text))
    ensures HasCleanEnds(punctuation, text) ==> Trim(punctuation, text) == text
    decreases |text|
  {
    if text != "" {
      if IsTrimmed(punctuation, text[0]) {
        TrimIsClean(punctuation, text[1..]);
      } else if IsTrimmed(punctuation, text[|text| - 1]) {
        TrimIsClean(punctuation, text[..|text| - 1]);
      }
    }
  }

  lemma {:induction false} StripIsShorter(text: string)
    ensures |Strip(text)| <= |text| && (|Strip(text)| == |text| ==> Strip(text) == text)
    ensures Strip(text) == text ==> text == "" || (!IsSpace(text[0]) && !IsSpace(text[|text| - 1]))
    decreases |text|
  {
    if text != "" {
      if IsSpace(text[0]) {
        StripIsShorter(text[1..]);
      } else if IsSpace(text[|text| - 1]) {
        StripIsShorter(text[..|text| - 1]);
      }
    }
  }

  // Words separated by single spaces.
  ghost predicate IsSpaced(text: string) {
    forall i :: 0 <= i < |text| && IsSpace(text[i]) ==>
      text[i] == ' ' && 0 < i < |text| - 1 && !IsSpace(text[i - 1]) && !IsSpace(text[i + 1])
  }

  lemma {:induction false} SpacedIsCollapsed(text: string)
    requires IsSpaced(text)
    ensures Collapse(text) == text
    decreases |text|
  {
    if text != "" {
      var word := FirstWord(text);
      assert !IsSpace(text[0]);
      var rest := text[|word|..];
      assert text == word + rest;
      if rest == "" {
        WordsOfWord(word);
      } else {
        var others := rest[1..];
        assert rest[0] == text[|word|] == ' ';
        assert text == word + [' '] + others && others != "";
        WordsAround(word, ' ', others);
        WordsOfWord(word);
        RestIsSpaced(text, |word|);
        SpacedIsCollapsed(others);
        assert Words(others) != [];
        assert Words(text)[1..] == Words(others);
      }
    }
  }

  lemma {:induction false} RestIsSpaced(text: string, n: nat)
    requires IsSpaced(text) && n < |text| && IsSpace(text[n])
    ensures text[n..][1..] == text[n + 1..] && IsSpaced(text[n + 1..])
  {
    var rest := text[n + 1..];
    forall i | 0 <= i < |rest| && IsSpace(rest[i])
      ensures rest[i] == ' ' && 0 < i < |rest| - 1 && !IsSpace(rest[i - 1]) && !IsSpace(rest[i + 1])
    {
      assert rest[i] == text[n + 1 + i];
      assert !IsSpace(text[n + 1]);
    }
  }

  lemma {:induction false} JoinIsSpaced(words: seq<string>)
    requires forall word :: word in words ==> IsWord(word)
    ensures IsSpaced(Join(" ", words))
    decreases |words|
  {
    if words != [] {
      assert words[0] in words;
      if |words| > 1 {
        JoinIsSpaced(words[1..]);
        assert words[1] in words;
        JoinStart(words[1..]);
        SpacedAfterWord(words[0], Join(" ", words[1..]));
      }
    }
  }

  lemma {:induction false} JoinStart(words: seq<string>)
    requires words != [] && forall word :: word in words ==> IsWord(word)
    ensures Join(" ", words) != "" && !IsSpace(Join(" ", words)[0])
  {
    assert words[0] in words;
    assert Join(" ", words)[0] == words[0][0];
  }

  lemma {:induction false} SpacedAfterWord(word: string, rest: string)
    requires IsWord(word) && IsSpaced(rest) && rest != "" && !IsSpace(rest[0])
    ensures IsSpaced(word + " " + rest)
  {
    var text := word + " " + rest;
    forall i | 0 <= i < |text| && IsSpace(text[i])
      ensures text[i] == ' ' && 0 < i < |text| - 1 && !IsSpace(text[i - 1]) && !IsSpace(text[i + 1])
    {
      if i > |word| {
        assert text[i] == rest[i - |word| - 1];
        assert text[i - 1] == rest[i - |word| - 2] && text[i + 1] == rest[i - |word|];
      }
    }
  }

  lemma {:induction false} TrimIsSlice(punctuation: char -> bool, text: string) returns (start: nat, end: nat)
    ensures start <= end <= |text| && Trim(punctuation, text) == text[start..end]
    decreases |text|
  {
    if text == "" {
      start, end := 0, 0;
    } else if IsTrimmed(punctuation, text[0]) {
      start, end := TrimIsSlice(punctuation, text[1..]);
      assert text[1..][start..end] == text[start + 1..end + 1];
      start, end := start + 1, end + 1;
    } else if IsTrimmed(punctuation, text[|text| - 1]) {
      start, end := TrimIsSlice(punctuation, text[..|text| - 1]);
      assert text[..|text| - 1][start..end] == text[start..end];
    } else {
      start, end := 0, |text|;
      assert text[0..|text|] == text;
    }
  }

  lemma {:induction false} SliceIsSpaced(text: string, start: nat, end: nat)
    requires IsSpaced(text) && start < end <= |text| && !IsSpace(text[start]) && !IsSpace(text[end - 1])
    ensures IsSpaced(text[start..end])
  {
    var slice := text[start..end];
    forall i | 0 <= i < |slice| && IsSpace(slice[i])
      ensures slice[i] == ' ' && 0 < i < |slice| - 1 && !IsSpace(slice[i - 1]) && !IsSpace(slice[i + 1])
    {
      assert slice[i] == text[start + i];
    }
  }

  ghost predicate AreTrimmed(punctuation: char -> bool, text: string) {
    forall i :: 0 <= i < |text| ==> IsSpace(text[i]) || punctuation(text[i])
  }

  // What white space and punctuation at both ends leave of the text.
  ghost predicate IsCore(punctuation: char -> bool, text: string, core: string) {
    && core != "" && !AreTrimmed(punctuation, core[..1]) && !AreTrimmed(punctuation, core[|core| - 1..])
    && exists start: nat :: start + |core| <= |text| && IsCoreAt(punctuation, text, core, start)
  }

  ghost predicate IsCoreAt(punctuation: char -> bool, text: string, core: string, start: nat)
    requires start + |core| <= |text|
  {
    && text[start..start + |core|] == core
    && AreTrimmed(punctuation, text[..start]) && AreTrimmed(punctuation, text[start + |core|..])
  }

  lemma {:induction false} TrimIsCore(punctuation: char -> bool, text: string) returns (start: nat)
    ensures var core := Trim(punctuation, text);
            start + |core| <= |text| && IsCoreAt(punctuation, text, core, start)
    decreases |text|
  {
    start := 0;
    if text != "" && IsTrimmed(punctuation, text[0]) {
      var rest := TrimIsCore(punctuation, text[1..]);
      start := rest + 1;
      CoreOfRest(punctuation, text, Trim(punctuation, text), rest);
    } else if text != "" && IsTrimmed(punctuation, text[|text| - 1]) {
      start := TrimIsCore(punctuation, text[..|text| - 1]);
      CoreOfInit(punctuation, text, Trim(punctuation, text), start);
    }
  }

  lemma {:induction false} CoreOfRest(punctuation: char -> bool, text: string, core: string, start: nat)
    requires text != "" && IsTrimmed(punctuation, text[0]) && start + 1 + |core| <= |text|
    requires IsCoreAt(punctuation, text[1..], core, start)
    ensures IsCoreAt(punctuation, text, core, start + 1)
  {
    assert text[..start + 1] == [text[0]] + text[1..][..start];
    assert text[start + 1..start + 1 + |core|] == text[1..][start..start + |core|];
    assert text[start + 1 + |core|..] == text[1..][start + |core|..];
  }

  lemma {:induction false} CoreOfInit(punctuation: char -> bool, text: string, core: string, start: nat)
    requires text != "" && IsTrimmed(punctuation, text[|text| - 1]) && start + |core| < |text|
    requires IsCoreAt(punctuation, text[..|text| - 1], core, start)
    ensures IsCoreAt(punctuation, text, core, start)
  {
    var init := text[..|text| - 1];
    assert text[..start] == init[..start] && text[start..start + |core|] == init[start..start + |core|];
    assert text[start + |core|..] == init[start + |core|..] + [text[|text| - 1]];
  }

  lemma {:induction false} OneCore(punctuation: char -> bool, text: string, a: string, b: string)
    requires IsCore(punctuation, text, a) && IsCore(punctuation, text, b)
    ensures a == b
  {
    var m: nat :| m + |a| <= |text| && IsCoreAt(punctuation, text, a, m);
    var n: nat :| n + |b| <= |text| && IsCoreAt(punctuation, text, b, n);
    NotBefore(punctuation, text, a, m, b, n);
    NotBefore(punctuation, text, b, n, a, m);
  }

  // The second core begins no earlier than the first one and ends no later.
  lemma {:induction false} NotBefore(punctuation: char -> bool, text: string, a: string, m: nat, b: string, n: nat)
    requires IsCore(punctuation, text, b)
    requires m + |a| <= |text| && IsCoreAt(punctuation, text, a, m)
    requires n + |b| <= |text| && IsCoreAt(punctuation, text, b, n)
    ensures n >= m && n + |b| <= m + |a|
  {
    CoreEnds(punctuation, text, b, n);
    NotWithin(punctuation, text[..m], n);
    NotWithin(punctuation, text[m + |a|..], n + |b| - 1 - (m + |a|));
  }

  lemma {:induction false} CoreEnds(punctuation: char -> bool, text: string, core: string, start: nat)
    requires core != "" && start + |core| <= |text| && text[start..start + |core|] == core
    requires !AreTrimmed(punctuation, core[..1]) && !AreTrimmed(punctuation, core[|core| - 1..])
    ensures !IsTrimmed(punctuation, text[start]) && !IsTrimmed(punctuation, text[start + |core| - 1])
  {
    assert core[0] == text[start] && core[|core| - 1] == text[start + |core| - 1];
  }

  lemma {:induction false} NotWithin(punctuation: char -> bool, part: string, i: int)
    requires AreTrimmed(punctuation, part)
    ensures 0 <= i < |part| ==> IsTrimmed(punctuation, part[i])
  {
  }

  /** Main result: a name is what is left of its collapsed form when white space and punctuation are taken off both
      ends, and there is none exactly when nothing is left. */
  lemma {:induction false} EntityNameIff(punctuation: char -> bool, name: string, core: string)
    ensures EntityName(punctuation, name) == Ok(core) <==> IsCore(punctuation, Collapse(name), core)
    ensures EntityName(punctuation, name).Err? <==> AreTrimmed(punctuation, Collapse(name))
    ensures EntityName(punctuation, name).Err? ==> EntityName(punctuation, name).error == BlankComponent
  {
    var text := Collapse(name);
    var trimmed := Trim(punctuation, text);
    var start := TrimIsCore(punctuation, text);
    TrimIsClean(punctuation, text);
    if trimmed == "" {
      assert text == text[..start] + text[start..];
      forall i | 0 <= i < |text| ensures IsSpace(text[i]) || punctuation(text[i]) {
        assert text[i] == if i < start then text[..start][i] else text[start..][i - start];
      }
      NoCoreOfTrimmed(punctuation, text, core);
    } else {
      CleanEndsRemain(punctuation, trimmed);
      assert IsCore(punctuation, text, trimmed);
      CoreEnds(punctuation, text, trimmed, start);
      if IsCore(punctuation, text, core) {
        OneCore(punctuation, text, core, trimmed);
      }
    }
  }

  lemma {:induction false} CleanEndsRemain(punctuation: char -> bool, core: string)
    requires core != "" && HasCleanEnds(punctuation, core)
    ensures !AreTrimmed(punctuation, core[..1]) && !AreTrimmed(punctuation, core[|core| - 1..])
  {
    assert core[..1][0] == core[0] && core[|core| - 1..][0] == core[|core| - 1];
  }

  lemma {:induction false} NoCoreOfTrimmed(punctuation: char -> bool, text: string, core: string)
    requires AreTrimmed(punctuation, text)
    ensures !IsCore(punctuation, text, core)
  {
    if IsCore(punctuation, text, core) {
      var start: nat :| start + |core| <= |text| && IsCoreAt(punctuation, text, core, start);
      CoreEnds(punctuation, text, core, start);
    }
  }

  /** A normalized entity name begins and ends with neither white space nor punctuation, and normalizing it again
      changes nothing. */
  lemma {:induction false} EntityNameIsIdempotent(punctuation: char -> bool, name: string)
    requires EntityName(punctuation, name).Ok?
    ensures HasCleanEnds(punctuation, EntityName(punctuation, name).value)
    ensures EntityName(punctuation, EntityName(punctuation, name).value) == EntityName(punctuation, name)
  {
    var collapsed := Collapse(name);
    var trimmed := Trim(punctuation, collapsed);
    TrimIsClean(punctuation, collapsed);
    var start, end := TrimIsSlice(punctuation, collapsed);
    JoinIsSpaced(Words(name));
    SliceIsSpaced(collapsed, start, end);
    SpacedIsCollapsed(trimmed);
    TrimIsClean(punctuation, trimmed);
  }

  /** The loop to a fixpoint ends, and one trim of both kinds of characters says what it computes. */
  method NormalizeEntityName(punctuation: char -> bool, name: string) returns (result: Result<string, IdError>)
    ensures result == EntityName(punctuation, name)
  {
    var normalized := Collapse(name);
    var previous: Option<string> := None;
    while previous != Some(normalized)
      invariant Trim(punctuation, normalized) == Trim(punctuation, Collapse(name))
      invariant previous.Some? ==> |normalized| <= |previous.value|
      invariant previous == Some(normalized) ==> HasCleanEnds(punctuation, normalized)
      decreases if previous.None? then 1 else 0, |normalized|, if previous == Some(normalized) then 0 else 1
    {
      previous := Some(normalized);
      var stripped := Strip(normalized);
      TrimOfStrip(punctuation, normalized);
      StripIsShorter(normalized);
      var start, end := TrimPunctuation(punctuation, stripped);
      normalized := stripped[start..end];
    }
    TrimIsClean(punctuation, normalized);
    if normalized == "" {
      return Err(BlankComponent);
    }
    result := Ok(normalized);
  }

  // The two inner loops.
  method TrimPunctuation(punctuation: char -> bool, text: string) returns (start: nat, end: nat)
    ensures start <= end <= |text|
    ensures Trim(punctuation, text[start..end]) == Trim(punctuation, text)
    ensures start == 0 && end == |text| ==> text == "" || (!punctuation(text[0]) && !punctuation(text[|text| - 1]))
  {
    start, end := 0, |text|;
    while start < end && punctuation(text[start])
      invariant start <= end
      invariant forall i :: 0 <= i < start ==> IsTrimmed(punctuation, text[i])
    {
      start := start + 1;
    }
    ghost var from := start;
    TrimFront(punctuation, text, start);
    while end > start && punctuation(text[end - 1])
      invariant start <= end <= |text|
      invariant forall i :: end <= i < |text| ==> IsTrimmed(punctuation, text[i])
    {
      end := end - 1;
    }
    TrimBack(punctuation, text[start..], end - start);
    assert text[start..][..end - start] == text[start..end];
  }
}
