// The canonical CBOR preimage of a block hash: the writers that append to a
// byte buffer, the function they compute, and a decoder for the general format
// of sections 3 and 3.1 of RFC 8949 that shows the encoding loses nothing.
module Cbor {
  import opened Types

  // ---------- big-endian integers ----------

  function Pow256(width: nat): nat {
    if width == 0 then 1 else 256 * Pow256(width - 1)
  }

  function BigEndian(n: nat, width: nat): (b: Bytes)
    requires n < Pow256(width)
    ensures |b| == width
  {
    if width == 0 then [] else BigEndian(n / 256, width - 1) + [n % 256]
  }

  function FromBigEndian(b: Bytes): (n: nat)
    ensures n < Pow256(|b|)
  {
    if b == [] then 0 else FromBigEndian(b[..|b| - 1]) * 256 + b[|b| - 1]
  }

  lemma {:induction false} BigEndianRoundTrip(n: nat, width: nat)
    requires n < Pow256(width)
    ensures FromBigEndian(BigEndian(n, width)) == n
  {
    if width > 0 {
      BigEndianRoundTrip(n / 256, width - 1);
      var b := BigEndian(n, width);
      assert b[..|b| - 1] == BigEndian(n / 256, width - 1);
    }
  }

  lemma Widths()
    ensures Pow256(1) == 0x100
    ensures Pow256(2) == 0x1_0000
    ensures Pow256(4) == TWO_TO_THE_32
    ensures Pow256(8) == TWO_TO_THE_64
  {}

  // ---------- heads ----------

  const UNSIGNED := 0
  const BYTE_STRING := 2
  const TEXT_STRING := 3
  const ARRAY := 4

  // The head of a data item: a major type and an argument.
  function Head(major: nat, value: u64): (b: Bytes)
    requires major <= 7
    ensures |b| > 0
  {
    Widths();
    if value <= 23 then [major * 32 + value]
    else if value <= 0xFF then [major * 32 + 24] + BigEndian(value, 1)
    else if value <= 0xFFFF then [major * 32 + 25] + BigEndian(value, 2)
    else if value < TWO_TO_THE_32 then [major * 32 + 26] + BigEndian(value, 4)
    else [major * 32 + 27] + BigEndian(value, 8)
  }

  datatype HeadItem = HeadItem(major: nat, value: nat, rest: Bytes)

  function ArgumentWidth(info: nat): Option<nat> {
    if info <= 23 then Some(0)
    else if info == 24 then Some(1)
    else if info == 25 then Some(2)
    else if info == 26 then Some(4)
    else if info == 27 then Some(8)
    else None
  }

  // A decoder of any well-formed definite head, shortest or not.
  function DecodeHead(b: Bytes): (item: Option<HeadItem>)
    ensures item.Some? ==> |item.value.rest| < |b|
  {
    if b == [] then None
    else
      var major, info := b[0] / 32, b[0] % 32;
      var width := ArgumentWidth(info);
      if width.None? || |b| < 1 + width.value then None
      else if width.value == 0 then Some(HeadItem(major, info, b[1..]))
      else Some(HeadItem(major, FromBigEndian(b[1..1 + width.value]), b[1 + width.value..]))
  }

  lemma LongHeadRoundTrip(lead: byte, width: nat, value: nat, rest: Bytes)
    requires ArgumentWidth(lead % 32) == Some(width) && width > 0 && value < Pow256(width)
    ensures DecodeHead([lead] + BigEndian(value, width) + rest) == Some(HeadItem(lead / 32, value, rest))
  {
    var b := [lead] + BigEndian(value, width) + rest;
    assert b[1..1 + width] == BigEndian(value, width);
    assert b[1 + width..] == rest;
    BigEndianRoundTrip(value, width);
  }

  lemma Lead(major: nat, info: nat)
    requires major <= 7 && info < 32
    ensures (major * 32 + info) / 32 == major && (major * 32 + info) % 32 == info
  {}

  lemma ShortHeadRoundTrip(major: nat, value: nat, rest: Bytes)
    requires major <= 7 && value <= 23
    ensures DecodeHead([major * 32 + value] + rest) == Some(HeadItem(major, value, rest))
  {
    Lead(major, value);
    assert ([major * 32 + value] + rest)[1..] == rest;
  }

  lemma HeadRoundTrip(major: nat, value: u64, rest: Bytes)
    requires major <= 7
    ensures DecodeHead(Head(major, value) + rest) == Some(HeadItem(major, value, rest))
  {
    Widths();
    hide Pow256, BigEndian, FromBigEndian, DecodeHead;
    if value <= 23 {
      ShortHeadRoundTrip(major, value, rest);
    } else if value <= 0xFF {
      Lead(major, 24);
      LongHeadRoundTrip(major * 32 + 24, 1, value, rest);
    } else if value <= 0xFFFF {
      Lead(major, 25);
      LongHeadRoundTrip(major * 32 + 25, 2, value, rest);
    } else if value < TWO_TO_THE_32 {
      Lead(major, 26);
      LongHeadRoundTrip(major * 32 + 26, 4, value, rest);
    } else {
      Lead(major, 27);
      LongHeadRoundTrip(major * 32 + 27, 8, value, rest);
    }
  }

  // Heads from the examples of appendix A: 23, 24, 1000, 1000000 and 1000000000000.
  lemma HeadExamples()
    ensures Head(0, 23) == [0x17] && Head(0, 24) == [0x18, 0x18] && Head(0, 1000) == [0x19, 0x03, 0xe8]
    ensures Head(0, 1000000) == [0x1a, 0x00, 0x0f, 0x42, 0x40]
    ensures Head(0, 1000000000000) == [0x1b, 0x00, 0x00, 0x00, 0xe8, 0xd4, 0xa5, 0x10, 0x00]
  {
    Widths();
    hide Pow256, BigEndian;
    ShortExamples();
    LongExample();
  }

  lemma ShortExamples()
    ensures Pow256(1) == 0x100 && BigEndian(24, 1) == [0x18]
    ensures Pow256(2) == 0x1_0000 && BigEndian(1000, 2) == [0x03, 0xe8]
    ensures Pow256(4) == TWO_TO_THE_32 && BigEndian(1000000, 4) == [0x00, 0x0f, 0x42, 0x40]
  {
    Widths();
    hide Pow256, BigEndian, FromBigEndian;
    var none: Bytes := [];
    Value(none, 0x18);
    BytesOf(none + [0x18]);
    Value(none, 0x03);
    Value(none + [0x03], 0xe8);
    BytesOf(none + [0x03] + [0xe8]);
    Value(none, 0x00);
    Value(none + [0x00], 0x0f);
    Value(none + [0x00] + [0x0f], 0x42);
    Value(none + [0x00] + [0x0f] + [0x42], 0x40);
    BytesOf(none + [0x00] + [0x0f] + [0x42] + [0x40]);
  }

  lemma LongExample()
    ensures Pow256(8) == TWO_TO_THE_64
    ensures BigEndian(1000000000000, 8) == [0x00, 0x00, 0x00, 0xe8, 0xd4, 0xa5, 0x10, 0x00]
  {
    Widths();
    hide Pow256, BigEndian, FromBigEndian;
    var none: Bytes := [];
    var high := none + [0x00] + [0x00] + [0x00] + [0xe8];
    Value(none, 0x00);
    Value(none + [0x00], 0x00);
    Value(none + [0x00] + [0x00], 0x00);
    Value(none + [0x00] + [0x00] + [0x00], 0xe8);
    Value(high, 0xd4);
    Value(high + [0xd4], 0xa5);
    Value(high + [0xd4] + [0xa5], 0x10);
    Value(high + [0xd4] + [0xa5] + [0x10], 0x00);
    BytesOf(high + [0xd4] + [0xa5] + [0x10] + [0x00]);
  }

  lemma Value(b: Bytes, last: byte)
    ensures FromBigEndian([]) == 0
    ensures FromBigEndian(b + [last]) == FromBigEndian(b) * 256 + last
  {
    assert (b + [last])[..|b + [last]| - 1] == b;
  }

  lemma {:induction false} BytesOf(b: Bytes)
    ensures BigEndian(FromBigEndian(b), |b|) == b
  {
    if b != [] { BytesOf(b[..|b| - 1]); }
  }

  // Section 4.2.1: no byte string that decodes to the same head is shorter.
  lemma HeadIsShortest(b: Bytes)
    requires DecodeHead(b).Some?
    ensures var item := DecodeHead(b).value;
            item.major <= 7 && item.value < TWO_TO_THE_64 &&
            |Head(item.major, item.value)| <= |b| - |item.rest|
  {}

  // ---------- the hashed tuple ----------

  // The three members of the hashed tuple; extra keys are UTF-8 byte strings.
  datatype Preimage = Preimage(prefix: Bytes, tokens: seq<Token>, keys: seq<Bytes>)

  // The cast of a length to 64 bits.
  function Len64<T>(s: seq<T>): u64 {
    |s| % TWO_TO_THE_64
  }

  function ByteString(major: nat, s: Bytes): Bytes
    requires major <= 7
  {
    Head(major, Len64(s)) + s
  }

  function Integers(tokens: seq<Token>): Bytes {
    if tokens == [] then [] else Head(UNSIGNED, tokens[0]) + Integers(tokens[1..])
  }

  function Texts(keys: seq<Bytes>): Bytes {
    if keys == [] then [] else ByteString(TEXT_STRING, keys[0]) + Texts(keys[1..])
  }

  function TokenArray(tokens: seq<Token>): Bytes {
    Head(ARRAY, Len64(tokens)) + Integers(tokens)
  }

  function KeyArray(keys: seq<Bytes>): Bytes {
    Head(ARRAY, Len64(keys)) + Texts(keys)
  }

  function Encode(p: Preimage): Bytes {
    Head(ARRAY, 3) + ByteString(BYTE_STRING, p.prefix) + TokenArray(p.tokens) + KeyArray(p.keys)
  }

  // Lengths a 64-bit machine can hold.
  ghost predicate Addressable(p: Preimage) {
    && |p.prefix| < TWO_TO_THE_64 && |p.tokens| < TWO_TO_THE_64 && |p.keys| < TWO_TO_THE_64
    && forall k :: k in p.keys ==> |k| < TWO_TO_THE_64
  }

  // ---------- the reader ----------

  // Data items, of the major types of section 3.1 that the tuple needs: 0 for unsigned
  // integers, 2 for byte strings, 3 for text strings and 4 for arrays.
  datatype Item =
    | UnsignedItem(value: nat)
    | BytesItem(bytes: Bytes)
    | TextItem(utf8: Bytes)
    | ArrayItem(items: seq<Item>)

  datatype Decoded<+T> = Decoded(item: T, rest: Bytes)

  // The item at the front of a byte stream.
  function ReadItem(b: Bytes): (r: Option<Decoded<Item>>)
    ensures r.Some? ==> |r.value.rest| < |b|
    decreases |b|, 0
  {
    match DecodeHead(b)
    case None => None
    case Some(HeadItem(major, n, rest)) =>
      if major == 0 then Some(Decoded(UnsignedItem(n), rest))
      else if major == 2 && n <= |rest| then Some(Decoded(BytesItem(rest[..n]), rest[n..]))
      else if major == 3 && n <= |rest| then Some(Decoded(TextItem(rest[..n]), rest[n..]))
      else if major == 4 then
        match ReadItems(n, rest)
        case None => None
        case Some(Decoded(items, rest')) => Some(Decoded(ArrayItem(items), rest'))
      else None
  }

  function ReadItems(n: nat, b: Bytes): (r: Option<Decoded<seq<Item>>>)
    ensures r.Some? ==> |r.value.rest| <= |b|
    decreases |b|, 1
  {
    if n == 0 then Some(Decoded([], b))
    else
      match ReadItem(b)
      case None => None
      case Some(Decoded(item, rest)) =>
        match ReadItems(n - 1, rest)
        case None => None
        case Some(Decoded(items, rest')) => Some(Decoded([item] + items, rest'))
  }

  function TokenItems(tokens: seq<Token>): (items: seq<Item>)
    ensures |items| == |tokens| && forall i :: 0 <= i < |items| ==> items[i] == UnsignedItem(tokens[i])
  {
    if tokens == [] then [] else [UnsignedItem(tokens[0])] + TokenItems(tokens[1..])
  }

  function KeyItems(keys: seq<Bytes>): (items: seq<Item>)
    ensures |items| == |keys| && forall i :: 0 <= i < |items| ==> items[i] == TextItem(keys[i])
  {
    if keys == [] then [] else [TextItem(keys[0])] + KeyItems(keys[1..])
  }

  // The tuple as a data item.
  function TupleItem(p: Preimage): Item {
    ArrayItem([BytesItem(p.prefix), ArrayItem(TokenItems(p.tokens)), ArrayItem(KeyItems(p.keys))])
  }

  lemma Regroup(a: Bytes, b: Bytes, c: Bytes)
    ensures (a + b) + c == a + (b + c)
  {}

  lemma BytesRoundTrip(s: Bytes, rest: Bytes)
    requires |s| < TWO_TO_THE_64
    ensures ReadItem(ByteString(BYTE_STRING, s) + rest) == Some(Decoded(BytesItem(s), rest))
    ensures ReadItem(ByteString(TEXT_STRING, s) + rest) == Some(Decoded(TextItem(s), rest))
  {
    var b := s + rest;
    assert Len64(s) == |s|;
    HeadRoundTrip(BYTE_STRING, |s|, b);
    HeadRoundTrip(TEXT_STRING, |s|, b);
    Regroup(Head(BYTE_STRING, |s|), s, rest);
    Regroup(Head(TEXT_STRING, |s|), s, rest);
    assert b[..|s|] == s && b[|s|..] == rest;
  }

  lemma {:induction false} IntegersRoundTrip(tokens: seq<Token>, rest: Bytes)
    ensures ReadItems(|tokens|, Integers(tokens) + rest) == Some(Decoded(TokenItems(tokens), rest))
  {
    if tokens == [] {
      assert Integers(tokens) + rest == rest;
    } else {
      HeadRoundTrip(UNSIGNED, tokens[0], Integers(tokens[1..]) + rest);
      Regroup(Head(UNSIGNED, tokens[0]), Integers(tokens[1..]), rest);
      IntegersRoundTrip(tokens[1..], rest);
    }
  }

  lemma {:induction false} TextsRoundTrip(keys: seq<Bytes>, rest: Bytes)
    requires forall k :: k in keys ==> |k| < TWO_TO_THE_64
    ensures ReadItems(|keys|, Texts(keys) + rest) == Some(Decoded(KeyItems(keys), rest))
  {
    if keys == [] {
      assert Texts(keys) + rest == rest;
    } else {
      BytesRoundTrip(keys[0], Texts(keys[1..]) + rest);
      Regroup(ByteString(TEXT_STRING, keys[0]), Texts(keys[1..]), rest);
      TextsRoundTrip(keys[1..], rest);
    }
  }

  lemma TokenArrayRoundTrip(tokens: seq<Token>, rest: Bytes)
    requires |tokens| < TWO_TO_THE_64
    ensures ReadItem(TokenArray(tokens) + rest) == Some(Decoded(ArrayItem(TokenItems(tokens)), rest))
  {
    assert Len64(tokens) == |tokens|;
    HeadRoundTrip(ARRAY, |tokens|, Integers(tokens) + rest);
    Regroup(Head(ARRAY, |tokens|), Integers(tokens), rest);
    IntegersRoundTrip(tokens, rest);
  }

  lemma KeyArrayRoundTrip(keys: seq<Bytes>, rest: Bytes)
    requires |keys| < TWO_TO_THE_64 && forall k :: k in keys ==> |k| < TWO_TO_THE_64
    ensures ReadItem(KeyArray(keys) + rest) == Some(Decoded(ArrayItem(KeyItems(keys)), rest))
  {
    assert Len64(keys) == |keys|;
    HeadRoundTrip(ARRAY, |keys|, Texts(keys) + rest);
    Regroup(Head(ARRAY, |keys|), Texts(keys), rest);
    TextsRoundTrip(keys, rest);
  }

  lemma ThreeItems(b: Bytes, b1: Bytes, b2: Bytes, rest: Bytes, x: Item, y: Item, z: Item)
    requires ReadItem(b) == Some(Decoded(x, b1)) && ReadItem(b1) == Some(Decoded(y, b2))
    requires ReadItem(b2) == Some(Decoded(z, rest))
    ensures ReadItems(3, b) == Some(Decoded([x, y, z], rest))
  {
    assert ReadItems(0, rest) == Some(Decoded([], rest));
    hide ReadItem, ReadItems;
    OneMoreItem(0, b2, z, rest, [], rest);
    assert [z] + [] == [z] && [y] + [z] == [y, z] && [x] + [y, z] == [x, y, z];
    OneMoreItem(1, b1, y, b2, [z], rest);
    OneMoreItem(2, b, x, b1, [y, z], rest);
  }

  lemma OneMoreItem(n: nat, b: Bytes, item: Item, rest: Bytes, items: seq<Item>, end: Bytes)
    requires ReadItem(b) == Some(Decoded(item, rest)) && ReadItems(n, rest) == Some(Decoded(items, end))
    ensures ReadItems(n + 1, b) == Some(Decoded([item] + items, end))
  {
    hide ReadItem;
  }

  // The encoding is self-delimiting: whatever follows it, a reader of data items finds an
  // array of the prefix as a byte string, an array of the tokens as unsigned integers and
  // an array of the keys as text strings, and exactly what follows.
  lemma {:induction false} EncodeRoundTrip(p: Preimage, rest: Bytes)
    requires Addressable(p)
    ensures ReadItem(Encode(p) + rest) == Some(Decoded(TupleItem(p), rest))
  {
    hide Head, ByteString, TokenArray, KeyArray, ReadItems, DecodeHead;
    var b3 := KeyArray(p.keys) + rest;
    var b2 := TokenArray(p.tokens) + b3;
    var b1 := ByteString(BYTE_STRING, p.prefix) + b2;
    Reassociate(Head(ARRAY, 3), ByteString(BYTE_STRING, p.prefix), TokenArray(p.tokens), KeyArray(p.keys), rest);
    HeadRoundTrip(ARRAY, 3, b1);
    BytesRoundTrip(p.prefix, b2);
    TokenArrayRoundTrip(p.tokens, b3);
    KeyArrayRoundTrip(p.keys, rest);
    ThreeItems(b1, b2, b3, rest, BytesItem(p.prefix), ArrayItem(TokenItems(p.tokens)), ArrayItem(KeyItems(p.keys)));
  }

  lemma Reassociate(a: Bytes, b: Bytes, c: Bytes, d: Bytes, e: Bytes)
    ensures a + b + c + d + e == a + (b + (c + (d + e)))
  {}

  // The first bytes for a 32-byte prefix: an array of three, and a byte string of 32.
  lemma EncodeStart(p: Preimage)
    requires |p.prefix| == 32
    ensures Encode(p)[..3] == [0x83, 0x58, 0x20] && Encode(p)[3..35] == p.prefix
  {
    assert BigEndian(32, 1) == [32] && Len64(p.prefix) == 32;
    hide TokenArray, KeyArray, BigEndian;
    assert Encode(p) == [0x83] + ([0x58, 0x20] + p.prefix) + TokenArray(p.tokens) + KeyArray(p.keys);
  }

  // Two preimages whose encodings start the same stream are the same preimage.
  lemma EncodeInjective(p: Preimage, q: Preimage, afterP: Bytes, afterQ: Bytes)
    requires Addressable(p) && Addressable(q)
    requires Encode(p) + afterP == Encode(q) + afterQ
    ensures p == q && afterP == afterQ
  {
    EncodeRoundTrip(p, afterP);
    EncodeRoundTrip(q, afterQ);
    TupleItemInjective(p, q);
  }

  lemma TupleItemInjective(p: Preimage, q: Preimage)
    requires TupleItem(p) == TupleItem(q)
    ensures p == q
  {
    var x, y := TupleItem(p).items, TupleItem(q).items;
    assert x[0] == y[0] && x[1] == y[1] && x[2] == y[2];
    forall i | 0 <= i < |p.tokens| ensures p.tokens[i] == q.tokens[i] {
      assert TokenItems(p.tokens)[i] == TokenItems(q.tokens)[i];
    }
    forall i | 0 <= i < |p.keys| ensures p.keys[i] == q.keys[i] {
      assert KeyItems(p.keys)[i] == KeyItems(q.keys)[i];
    }
  }

  // ---------- the writers ----------

  class ByteBuffer {
    var bytes: Bytes

    constructor ()
      ensures bytes == []
    {
      bytes := [];
    }

    method WriteBigEndian(value: nat, width: nat)
      requires value < Pow256(width)
      modifies this
      ensures bytes == old(bytes) + BigEndian(value, width)
    {
      bytes := bytes + BigEndian(value, width);
    }

    // cbor_write_major_u64
    method WriteMajor(major: nat, value: u64)
      requires major <= 7
      modifies this
      ensures bytes == old(bytes) + Head(major, value)
    {
      Widths();
      if value <= 23 {
        bytes := bytes + [major * 32 + value];
      } else if value <= 0xFF {
        Regroup(bytes, [major * 32 + 24], BigEndian(value, 1));
        bytes := bytes + [major * 32 + 24];
        WriteBigEndian(value, 1);
      } else if value <= 0xFFFF {
        Regroup(bytes, [major * 32 + 25], BigEndian(value, 2));
        bytes := bytes + [major * 32 + 25];
        WriteBigEndian(value, 2);
      } else if value < TWO_TO_THE_32 {
        Regroup(bytes, [major * 32 + 26], BigEndian(value, 4));
        bytes := bytes + [major * 32 + 26];
        WriteBigEndian(value, 4);
      } else {
        Regroup(bytes, [major * 32 + 27], BigEndian(value, 8));
        bytes := bytes + [major * 32 + 27];
        WriteBigEndian(value, 8);
      }
    }

    // cbor_write_text
    method WriteText(value: Bytes)
      modifies this
      ensures bytes == old(bytes) + ByteString(TEXT_STRING, value)
    {
      WriteMajor(TEXT_STRING, Len64(value));
      bytes := bytes + value;
    }

    // cbor_write_bytes
    method WriteBytes(value: Bytes)
      modifies this
      ensures bytes == old(bytes) + ByteString(BYTE_STRING, value)
    {
      WriteMajor(BYTE_STRING, Len64(value));
      bytes := bytes + value;
    }
  }

  method WriteTokens(out: ByteBuffer, tokens: seq<Token>)
    modifies out
    ensures out.bytes == old(out.bytes) + TokenArray(tokens)
  {
    out.WriteMajor(ARRAY, Len64(tokens));
    ghost var before := out.bytes;
    var i := 0;
    while i < |tokens|
      invariant 0 <= i <= |tokens|
      invariant out.bytes + Integers(tokens[i..]) == before + Integers(tokens)
    {
      assert tokens[i..][1..] == tokens[i + 1..];
      Regroup(out.bytes, Head(UNSIGNED, tokens[i]), Integers(tokens[i + 1..]));
      out.WriteMajor(UNSIGNED, tokens[i]);
      i := i + 1;
    }
    assert tokens[i..] == [];
    Regroup(old(out.bytes), Head(ARRAY, Len64(tokens)), Integers(tokens));
  }

  method WriteKeys(out: ByteBuffer, keys: seq<Bytes>)
    modifies out
    ensures out.bytes == old(out.bytes) + KeyArray(keys)
  {
    out.WriteMajor(ARRAY, Len64(keys));
    ghost var before := out.bytes;
    var i := 0;
    while i < |keys|
      invariant 0 <= i <= |keys|
      invariant out.bytes + Texts(keys[i..]) == before + Texts(keys)
    {
      assert keys[i..][1..] == keys[i + 1..];
      Regroup(out.bytes, ByteString(TEXT_STRING, keys[i]), Texts(keys[i + 1..]));
      out.WriteText(keys[i]);
      i := i + 1;
    }
    assert keys[i..] == [];
    Regroup(old(out.bytes), Head(ARRAY, Len64(keys)), Texts(keys));
  }

  // The buffer that sha256_cbor_hash digests. Absent extra keys are the empty tuple.
  method BuildPreimage(tokens: seq<Token>, prefix: Bytes, extraKeys: Option<seq<Bytes>>) returns (cbor: Bytes)
    ensures cbor == Encode(Preimage(prefix, tokens, if extraKeys.Some? then extraKeys.value else []))
  {
    var out := new ByteBuffer();
    out.WriteMajor(ARRAY, 3);
    assert out.bytes == Head(ARRAY, 3);
    out.WriteBytes(prefix);
    WriteTokens(out, tokens);
    WriteKeys(out, if extraKeys.Some? then extraKeys.value else []);
    cbor := out.bytes;
  }
}
