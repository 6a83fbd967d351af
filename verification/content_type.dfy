/** `guess_content_type` and `_needs_charset` (server/handler.py). The extension table
    of `mimetypes.guess_type` is not modelled: its answer for a path is an input. */
module ContentType {
  import opened Common
  import opened Utf8
  import opened Text

  const DefaultType := "application/octet-stream"
  const CharsetParameter := "; charset=utf-8"

  /** `_needs_charset` on the bytes of the file: true when the ASCII decoding raises,
      or when it differs from the UTF-8 decoding (or that one raises). */
  function NeedsCharset(content: seq<byte>): bool {
    match AsciiDecode(content)
    case None => true
    case Some(ascii) =>
      match Decode(content)
      case None => true
      case Some(text) => ascii != text
  }

  /** A charset is needed exactly when some byte is 0x80 or above. */
  lemma NeedsCharsetExactly(content: seq<byte>)
    ensures NeedsCharset(content) <==> exists i | 0 <= i < |content| :: content[i] >= 0x80
  {
    if IsAscii(content) {
      AsciiIsUtf8(content);
    }
  }

  /** The type `mimetypes.guess_type` found, or the default when it found none
      (`None`, or an empty string, both of which `not mime_type` catches). */
  function BaseType(found: Option<string>): string {
    match found
    case Some(t) => if t == "" then DefaultType else t
    case None => DefaultType
  }

  /** `guess_content_type(path)`, given what `mimetypes.guess_type` answers and the
      bytes of the file. */
  function GuessContentType(path: string, content: seq<byte>, guessType: string -> Option<string>): string {
    var mime := BaseType(guessType(path));
    if StartsWith(mime, "text/") && NeedsCharset(content) then mime + CharsetParameter else mime
  }

  /** The content type is the looked-up type (the default when the lookup fails), with
      `; charset=utf-8` appended exactly when that type is `text/...` and the content
      holds a byte 0x80 or above. A failed lookup gives exactly the default type. */
  lemma ContentTypeExactly(path: string, content: seq<byte>, guessType: string -> Option<string>)
    ensures var mime := BaseType(guessType(path));
            GuessContentType(path, content, guessType)
            == if StartsWith(mime, "text/") && exists i | 0 <= i < |content| :: content[i] >= 0x80
               then mime + CharsetParameter
               else mime
    ensures guessType(path).None? ==> GuessContentType(path, content, guessType) == DefaultType
  {
    NeedsCharsetExactly(content);
    assert DefaultType[0] == 'a' && "text/"[0] == 't';
    assert !StartsWith(DefaultType, "text/");
  }

  /** The content type never breaks its header line when the lookup answers none. */
  lemma ContentTypeHasNoCr(path: string, content: seq<byte>, guessType: string -> Option<string>)
    requires guessType(path).Some? ==> '\r' !in guessType(path).value
    ensures '\r' !in GuessContentType(path, content, guessType)
  {
    assert '\r' !in DefaultType && '\r' !in CharsetParameter;
  }
}
