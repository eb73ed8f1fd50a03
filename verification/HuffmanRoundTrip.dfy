/** Compressing a file and decompressing the result, with coursedesign/zip/program/huffman.c. */
module HuffmanRoundTrip {
  import opened BitBytes
  import opened HuffmanTree
  import HuffmanBuild
  import opened HuffmanFile
  import HuffmanEncode
  import HuffmanDecode
  import HuffmanTrie

  ghost predicate TwoByteValues(text: seq<Byte>) {
    exists i, j :: 0 <= i < |text| && 0 <= j < |text| && text[i] != text[j]
  }

  // Compression crashes on the empty file alone. Decompression never fails on what compression wrote, and
  // it gives the text back exactly when that has two different byte values and a length below 2^32.
  method CompressDecompress(input: File, archive: File, output: File) returns (crashed: bool, rc: Option<int>)
    requires input != archive && archive != output && input != output
    requires input.Valid() && input.pos == 0 && archive.data == [] && archive.pos == 0 && output.data == []
    modifies input`pos, archive, output`data
    ensures crashed <==> input.data == []
    ensures !crashed ==> rc == Some(0)
    ensures !crashed ==>
      (output.data == input.data <==> TwoByteValues(input.data) && |input.data| < TWO32)
  {
    hide HuffmanTrie.DecodeBytes, ArchiveOf;
    rc := Some(0);
    ghost var t;
    crashed, t := HuffmanEncode.EncodeFile(input, archive);
    if crashed {
      return;
    }
    ghost var es := HuffmanEncode.EntriesUpTo(t, HuffmanBuild.MAX_SYMBOLS);
    HuffmanTrie.RoundTrip(archive.data, input.data, t, es);
    rc := HuffmanDecode.DecodeFile(archive, output);
  }
}
