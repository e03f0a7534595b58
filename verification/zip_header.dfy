/** The few Zip format constants the add pipeline emits or compares against.
    Their values come from the Zip headers of the archiver (compression method
    numbers and "version needed to extract" as in the ZIP application note). */
module ZipHeader {
  import opened Types

  const kStored: Byte := 0
  const kDeflated: Byte := 8
  const kDeflated64: Byte := 9
  const kBZip2: Byte := 12

  /** "Version needed to extract" written for stored and for compressed entries. */
  const kStoreExtractVersion: Byte := 10
  const kDeflateExtractVersion: Byte := 20

  /** Length of the traditional ZipCrypto encryption header (`NCrypto::NZip::kHeaderSize`). */
  const kZipCryptoHeaderSize: nat := 12

  /** The encoder families the pipeline can load for a non-store method. */
  datatype Codec = Deflate | Deflate64 | BZip2

  /** The encoder the method switch asks for, given the method id; `None` for an id the switch does not
      name, whose empty method name the method map can never resolve. */
  function CodecFor(id: Byte): (r: Option<Codec>)
    ensures r == Some(Deflate) <==> id == kDeflated
    ensures r == Some(Deflate64) <==> id == kDeflated64
    ensures r == Some(BZip2) <==> id == kBZip2
    ensures id == kStored ==> r == None
  {
    if id == kDeflated then Some(Deflate)
    else if id == kDeflated64 then Some(Deflate64)
    else if id == kBZip2 then Some(BZip2)
    else None
  }

  /** The version recorded for an entry coded with method `id`: only `kStored` gets
      the store version; every other method, BZip2 included, gets the Deflate one. */
  function ExtractVersion(id: Byte): (v: Byte)
    ensures v == kStoreExtractVersion <==> id == kStored
    ensures v in {kStoreExtractVersion, kDeflateExtractVersion}
  {
    if id == kStored then kStoreExtractVersion else kDeflateExtractVersion
  }
}
