/** What the interpreter supplies to the scanner: text encodings and character classes. */
module ScannerHost {
  import opened Bytes
  import opened ScannerRules
  import opened WideHomes

  datatype Encoding = EncUtf8 | EncUtf16Le | EncUtf16Be

  /** str.encode, UTF-8's bytes.decode, and str.isalnum. */
  datatype Host = Host(encode: (Encoding, seq<CodePoint>) -> seq<Byte>, decodeUtf8: Decoder,
    alnum: seq<CodePoint> -> bool)

  predicate Ascii(text: seq<Byte>) {
    forall b :: b in text ==> b < 128
  }

  function Unit(e: Encoding): nat {
    if e.EncUtf8? then 1 else 2
  }

  function Decoding(h: Host, e: Encoding): Decoder {
    match e
    case EncUtf8 => h.decodeUtf8
    case EncUtf16Le => Utf16Decoder(false)
    case EncUtf16Be => Utf16Decoder(true)
  }

  /** How ASCII text is encoded. */
  function Plain(e: Encoding, text: seq<Byte>): seq<Byte> {
    match e
    case EncUtf8 => text
    case EncUtf16Le => Wide(false, text)
    case EncUtf16Be => Wide(true, text)
  }

  /** ASCII is encoded as it should be, any character in one to four bytes, and nothing
      decodes to nothing. */
  ghost predicate SoundHost(h: Host) {
    && AsciiTransparent(h.decodeUtf8) && h.decodeUtf8([]) == []
    && (forall e: Encoding, text: seq<Byte> :: Ascii(text) ==> h.encode(e, text) == Plain(e, text))
    && forall e: Encoding, text: seq<CodePoint> :: |text| <= |h.encode(e, text)| <= 4 * |text|
  }
}
