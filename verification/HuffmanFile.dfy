/** Files, and the archive format of coursedesign/zip/program/huffman.c. */
module HuffmanFile {
  import opened Sums
  import opened BitBytes
  import opened MergeTree
  import opened HuffmanCode
  import opened HuffmanTree
  import opened HuffmanBuild
  import opened HuffmanCalc

  /** An open file: its bytes, and how far it has been read. Writing adds bytes at the end. */
  class File {
    var data: seq<Byte>
    var pos: nat

    ghost predicate Valid()
      reads this
    {
      pos <= |data|
    }

    constructor (data: seq<Byte>)
      ensures this.data == data && pos == 0 && Valid()
    {
      this.data, pos := data, 0;
    }

    /** fgetc, with None for EOF */
    method Getc() returns (c: Option<Byte>)
      requires Valid()
      modifies this`pos
      ensures Valid()
      ensures old(pos) == |data| ==> c == None && pos == old(pos)
      ensures old(pos) < |data| ==> c == Some(data[old(pos)]) && pos == old(pos) + 1
    {
      if pos < |data| {
        c := Some(data[pos]);
        pos := pos + 1;
      } else {
        c := None;
      }
    }

    /** fread of n bytes, with None when fewer are left; those are consumed all the same. */
    method Read(n: nat) returns (r: Option<seq<Byte>>)
      requires Valid()
      modifies this`pos
      ensures Valid()
      ensures old(pos) + n <= |data| ==> r == Some(data[old(pos)..old(pos) + n]) && pos == old(pos) + n
      ensures old(pos) + n > |data| ==> r == None && pos == |data|
    {
      if pos + n <= |data| {
        r := Some(data[pos..pos + n]);
        pos := pos + n;
      } else {
        r := None;
        pos := |data|;
      }
    }

    /** fputc and fwrite */
    method Write(bytes: seq<Byte>)
      modifies this`data
      ensures data == old(data) + bytes
    {
      data := data + bytes;
    }

    method Rewind()
      modifies this`pos
      ensures pos == 0
    {
      pos := 0;
    }
  }

  // ---- the format ----

  /** A line of the code table: a symbol and its code. */
  type Entry = (Byte, Bits)

  function EntryBytes(e: Entry): seq<Byte> {
    [e.0, ByteFrom(|e.1| % 256)] + Pack(e.1)
  }

  function TableBytes(es: seq<Entry>): seq<Byte> {
    if es == [] then [] else TableBytes(es[..|es| - 1]) + EntryBytes(es[|es| - 1])
  }

  /** es lists the code of every symbol of t once, in any order. */
  ghost predicate Lists(es: seq<Entry>, t: CodeTree) {
    && (forall i :: 0 <= i < |es| ==> es[i].0 in Symbols(t) && es[i].1 == CodeOf(t, es[i].0))
    && (forall i, j :: 0 <= i < j < |es| ==> es[i].0 != es[j].0)
    && (forall s :: s in Symbols(t) ==> exists i :: 0 <= i < |es| && es[i].0 == s)
  }

  /** The bits of a text. */
  function TextBits(t: CodeTree, text: seq<Byte>): Bits
    requires forall i :: 0 <= i < |text| ==> text[i] in Symbols(t)
  {
    if text == [] then [] else TextBits(t, text[..|text| - 1]) + CodeOf(t, text[|text| - 1])
  }

  lemma {:induction false} NoBits(t: CodeTree)
    ensures TextBits(t, []) == []
  {
  }

  lemma {:induction false} MoreText(t: CodeTree, text: seq<Byte>, c: Byte)
    requires forall i :: 0 <= i < |text| ==> text[i] in Symbols(t)
    requires c in Symbols(t)
    ensures TextBits(t, text + [c]) == TextBits(t, text) + CodeOf(t, c)
  {
    assert (text + [c])[..|text|] == text;
  }

  function ArchiveBytes(es: seq<Entry>, size: nat, bits: Bits): seq<Byte>
    requires |es| < TWO32 && size < TWO32
  {
    Net32(|es|) + Net32(size) + TableBytes(es) + Pack(bits)
  }

  /** The symbols of a text with the number of their occurrences. */
  ghost function Frequencies(text: seq<Byte>): set<(Byte, nat)> {
    set s | s in text :: (s, multiset(text)[s])
  }

  /** Every symbol of the text occurs in t with its count, and t is cheapest for those counts. */
  ghost predicate CodesText(t: CodeTree, text: seq<Byte>) {
    Height(t) <= 255 &&
    exists items: seq<(Byte, nat)> :: Optimal(t, items) && (set x | x in items) == Frequencies(text)
  }

  lemma InFrequencies(text: seq<Byte>, s: Byte)
    ensures s in text <==> exists w :: (s, w) in Frequencies(text)
  {
    assert s in text ==> (s, multiset(text)[s]) in Frequencies(text);
  }

  lemma {:induction false} ItemSymbols(t: CodeTree, items: seq<(Byte, nat)>, s: Byte)
    requires TreeOver(t, items)
    ensures s in Symbols(t) <==> exists w :: (s, w) in items
  {
    SymbolsAreLeaves(t);
    forall x ensures x in Leaves(t) <==> x in items {
      assert x in Leaves(t) <==> x in multiset(Leaves(t));
      assert x in items <==> x in multiset(items);
    }
  }

  lemma {:induction false} TextSymbols(t: CodeTree, text: seq<Byte>)
    requires CodesText(t, text)
    ensures Distinct(t) && forall s :: s in Symbols(t) <==> s in text
  {
    hide Frequencies, Symbols;
    var items: seq<(Byte, nat)> :| Optimal(t, items) && (set x | x in items) == Frequencies(text);
    forall s ensures s in Symbols(t) <==> s in text {
      InFrequencies(text, s);
      ItemSymbols(t, items, s);
      assert forall w :: (s, w) in items <==> (s, w) in (set x | x in items);
    }
  }

  /** file is an archive of the text, whatever order was chosen among equal counts. */
  ghost predicate ArchiveOf(file: seq<Byte>, text: seq<Byte>, t: CodeTree, es: seq<Entry>) {
    CodesText(t, text) && Lists(es, t) && |es| <= MAX_SYMBOLS &&
    (forall i :: 0 <= i < |text| ==> text[i] in Symbols(t)) &&
    file == ArchiveBytes(es, |text| % TWO32, TextBits(t, text))
  }
}
