module HuffmanSize {
  // How many bits the encoder of coursedesign/zip/program/huffman.c writes for a text: the coded length of its
  // frequencies, and so not more than any prefix code would need.

  import opened Sums
  import opened BitBytes
  import opened MergeCost
  import opened MergeTree
  import opened HuffmanCode
  import opened HuffmanCalc
  import opened HuffmanFile

  /** The bits of a text under any code. */
  function TextLength(text: seq<Byte>, code: Byte -> Bits): nat {
    if text == [] then 0 else TextLength(text[..|text| - 1], code) + |code(text[|text| - 1])|
  }

  /** No code word of a symbol of the text is a prefix of that of another. */
  ghost predicate PrefixCodeFor(text: seq<Byte>, code: Byte -> Bits) {
    forall s, u :: s in text && u in text && code(s) <= code(u) ==> s == u
  }

  lemma {:induction false} BitsAreTextLength(t: CodeTree, text: seq<Byte>)
    requires forall i :: 0 <= i < |text| ==> text[i] in Symbols(t)
    ensures |TextBits(t, text)| == TextLength(text, TreeCode(t))
  {
    if text != [] {
      BitsAreTextLength(t, text[..|text| - 1]);
    }
  }

  /** The same, symbol by symbol. */
  function Weighted(items: seq<(Byte, nat)>, text: seq<Byte>, code: Byte -> Bits): nat {
    if items == [] then 0
    else multiset(text)[items[0].0] * |code(items[0].0)| + Weighted(items[1..], text, code)
  }

  predicate HasSymbol(items: seq<(Byte, nat)>, s: Byte) {
    exists k :: 0 <= k < |items| && items[k].0 == s
  }

  lemma {:induction false} OneMoreByte(items: seq<(Byte, nat)>, text: seq<Byte>, c: Byte, code: Byte -> Bits)
    requires DistinctItems(items)
    ensures Weighted(items, text + [c], code) == Weighted(items, text, code) + if HasSymbol(items, c) then |code(c)| else 0
  {
    if items != [] {
      var rest := items[1..];
      OneMoreByte(rest, text, c, code);
      assert HasSymbol(items, c) <==> items[0].0 == c || HasSymbol(rest, c) by {
        assert forall k :: 0 < k < |items| ==> items[k] == rest[k - 1];
      }
      if items[0].0 == c {
        assert !HasSymbol(rest, c);
        Distribute(multiset(text)[c], |code(c)|);
      }
    }
  }

  lemma Distribute(m: nat, n: nat)
    ensures (m + 1) * n == m * n + n
  {
  }

  lemma {:induction false} WeightedIsTextLength(items: seq<(Byte, nat)>, text: seq<Byte>, code: Byte -> Bits)
    requires DistinctItems(items) && forall c :: c in text ==> HasSymbol(items, c)
    ensures Weighted(items, text, code) == TextLength(text, code)
    decreases |text|
  {
    if text == [] {
      NothingWeighs(items, code);
    } else {
      var n := |text| - 1;
      assert text == text[..n] + [text[n]];
      WeightedIsTextLength(items, text[..n], code);
      OneMoreByte(items, text[..n], text[n], code);
    }
  }

  lemma {:induction false} NothingWeighs(items: seq<(Byte, nat)>, code: Byte -> Bits)
    ensures Weighted(items, [], code) == 0
  {
    if items != [] {
      NothingWeighs(items[1..], code);
    }
  }

  lemma {:induction false} WeightedIsCodedLength(items: seq<(Byte, nat)>, text: seq<Byte>, code: Byte -> Bits)
    requires forall k :: 0 <= k < |items| ==> items[k].1 == multiset(text)[items[k].0]
    ensures CodedLength(items, code) == Weighted(items, text, code)
  {
    if items != [] {
      WeightedIsCodedLength(items[1..], text, code);
    }
  }

  lemma ItemsCount(items: seq<(Byte, nat)>, text: seq<Byte>)
    requires (set x | x in items) == Frequencies(text)
    ensures forall k :: 0 <= k < |items| ==> items[k].1 == multiset(text)[items[k].0] && items[k].0 in text
    ensures forall c :: c in text ==> HasSymbol(items, c)
  {
    forall k | 0 <= k < |items| ensures items[k].1 == multiset(text)[items[k].0] && items[k].0 in text {
      assert items[k] in Frequencies(text);
    }
    forall c | c in text ensures HasSymbol(items, c) {
      assert (c, multiset(text)[c]) in Frequencies(text);
      assert (c, multiset(text)[c]) in items;
    }
  }

  /** A text takes as many bits as its frequencies say. */
  lemma {:induction false} TextLengthIsCodedLength(items: seq<(Byte, nat)>, text: seq<Byte>, code: Byte -> Bits)
    requires DistinctItems(items) && (set x | x in items) == Frequencies(text)
    ensures TextLength(text, code) == CodedLength(items, code)
  {
    ItemsCount(items, text);
    WeightedIsTextLength(items, text, code);
    WeightedIsCodedLength(items, text, code);
  }

  /** What the encoder writes for the text is not longer than under any prefix code. */
  lemma {:induction false} NoPrefixCodeWritesLess(t: CodeTree, text: seq<Byte>, code: Byte -> Bits)
    requires CodesText(t, text) && PrefixCodeFor(text, code)
    ensures forall i :: 0 <= i < |text| ==> text[i] in Symbols(t)
    ensures |TextBits(t, text)| <= TextLength(text, code)
  {
    hide Symbols, Frequencies;
    TextSymbols(t, text);
    var items: seq<(Byte, nat)> :| Optimal(t, items) && (set x | x in items) == Frequencies(text);
    BitsAreTextLength(t, text);
    TextLengthIsCodedLength(items, text, TreeCode(t));
    TextLengthIsCodedLength(items, text, code);
    ItemsCount(items, text);
    WordsArePrefixFree(items, text, code);
    NoPrefixCodeIsShorter(t, items, code);
  }

  lemma WordsArePrefixFree(items: seq<(Byte, nat)>, text: seq<Byte>, code: Byte -> Bits)
    requires DistinctItems(items) && PrefixCodeFor(text, code) && forall k :: 0 <= k < |items| ==> items[k].0 in text
    ensures PrefixFree(CodeWords(items, code))
  {
  }
}
