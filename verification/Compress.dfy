/** Snappy as a contract: a pair of functions whose composition is the identity on non-empty data,
    with the expansion bound of its framing format (a 10-byte stream identifier and 8 bytes per
    64 KiB chunk, since a chunk that does not shrink is stored as it is). */
module Compress {
  import opened Bytes
  import opened Stream

  datatype Compressor = Compressor(zip: Bytes -> Bytes, unzip: Bytes -> Option<Bytes>)

  function ZipBound(n: nat): nat {
    n + 8 * (n / 65536 + 1) + 10
  }

  ghost predicate Lawful(c: Compressor) {
    forall x: Bytes {:trigger c.zip(x)} :: x != [] ==> c.unzip(c.zip(x)) == Some(x) && |c.zip(x)| <= ZipBound(|x|)
  }

  /** `Zip` refuses empty data. */
  function Zip(c: Compressor, data: Bytes): Result<Bytes, Error> {
    if data == [] then Err(EmptyData) else Ok(c.zip(data))
  }
}
