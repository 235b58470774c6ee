/** How much the missing padding step costs: which responses the STUN walk is sure to
    decode. */
module StunAlignment {
  import opened Bytes
  import opened Stun
  import Seqs

  predicate HaveLengths(attributes: seq<Attribute>, lengths: seq<nat>) {
    |attributes| == |lengths| && forall k :: 0 <= k < |lengths| ==> |attributes[k].value| == lengths[k]
  }

  function PaddingFor(length: nat): nat {
    (4 - length % 4) % 4
  }

  /** The bytes that attributes of these lengths take. */
  function Size(lengths: seq<nat>): nat {
    if lengths == [] then 0 else 4 + lengths[0] + PaddingFor(lengths[0]) + Size(lengths[1..])
  }

  /** A response with such attributes in front of the address fits in the buffer. */
  predicate Fits(lengths: seq<nat>) {
    20 + Size(lengths) + 12 <= MAXLINE
  }

  /** A received response: the length in its header covers the attributes up to the address
      at least, in whole words, and the message fits in the buffer. */
  predicate IsResponse(buf: seq<Byte>, lengths: seq<nat>, length: Word, id: seq<Byte>, before: seq<Attribute>,
                       ip: Address, xport: Word) {
    && |buf| == MAXLINE && |id| == 12
    && Size(lengths) + 12 <= length <= MAXLINE - 20 && length % 4 == 0
    && HaveLengths(before, lengths) && AllWellFormed(before) && NoneIsAddress(before)
    && At(buf, 0, Response(length, id, before, ip, xport))
  }

  ghost predicate IsDecoded(buf: seq<Byte>, ip: Address)
    requires |buf| == MAXLINE
  {
    exists turns :: Decode(buf, turns) == Found(Text4(ip))
  }

  /** Every response whose first attributes have these lengths is decoded. */
  ghost predicate AlwaysDecodes(lengths: seq<nat>) {
    forall buf, length, id, before, ip, xport ::
      IsResponse(buf, lengths, length, id, before, ip, xport) ==> IsDecoded(buf, ip)
  }

  predicate AllAligned(lengths: seq<nat>) {
    forall k :: 0 <= k < |lengths| ==> lengths[k] % 4 == 0
  }

  lemma AlignedParts(lengths: seq<nat>)
    requires !AllAligned(lengths)
    ensures lengths != []
    ensures PaddingFor(lengths[0]) == 0 ==> !AllAligned(lengths[1..])
  {
    if PaddingFor(lengths[0]) == 0 {
      var k :| 0 <= k < |lengths| && lengths[k] % 4 != 0;
      assert lengths[k] == lengths[1..][k - 1];
    }
  }

  // ---------- a response that misleads the walk ----------

  /** An attribute whose padding reads as another attribute of great length. */
  function Skewed(length: nat): (a: Attribute)
    requires length < 0x1_0000
    ensures WellFormed(a) && a.kind != XOR_MAPPED_ADDRESS && |a.value| == length
    ensures |a.padding| == PaddingFor(length)
  {
    var padding: seq<Byte> := [1, 0, 0x7F];
    Attribute(0x7F7F, seq(length, _ => 0), padding[..PaddingFor(length)])
  }

  predicate Short16(lengths: seq<nat>) {
    forall k :: 0 <= k < |lengths| ==> lengths[k] < 0x1_0000
  }

  function Skewing(lengths: seq<nat>): (r: seq<Attribute>)
    requires Short16(lengths)
    ensures AllWellFormed(r) && NoneIsAddress(r) && HaveLengths(r, lengths)
  {
    if lengths == [] then [] else [Skewed(lengths[0])] + Skewing(lengths[1..])
  }

  ghost predicate Dead(buf: seq<Byte>, i: int)
    requires |buf| == MAXLINE
  {
    forall turns :: !Walk(buf, i, turns).AtAddress?
  }

  lemma DeadStep(buf: seq<Byte>, i: nat)
    requires |buf| == MAXLINE && i + 4 <= MAXLINE && Short(buf[i], buf[i + 1]) != XOR_MAPPED_ADDRESS
    requires Dead(buf, i + 4 + Short(buf[i + 2], buf[i + 3]))
    ensures Dead(buf, i)
  {
    forall turns: nat ensures !Walk(buf, i, turns).AtAddress? {
      if turns > 0 {
        assert !Walk(buf, i + 4 + Short(buf[i + 2], buf[i + 3]), turns - 1).AtAddress?;
      }
    }
  }

  lemma DeadBehind(buf: seq<Byte>, i: nat, length: nat, land: nat)
    requires |buf| == MAXLINE && length < 0x1_0000 && At(buf, i, EncodeAttribute(Skewed(length)))
    requires land == i + 4 + length && Dead(buf, land)
    ensures Dead(buf, i)
  {
    HeaderAt(buf, i, Skewed(length));
    assert Short(buf[i + 2], buf[i + 3]) == length;
    DeadStep(buf, i);
  }

  /** An attribute that claims at least 0x2000 bytes ends the walk. */
  lemma DeadJump(buf: seq<Byte>, i: nat)
    requires |buf| == MAXLINE && i + 4 <= MAXLINE && Short(buf[i], buf[i + 1]) != XOR_MAPPED_ADDRESS
    requires 0x20 <= buf[i + 2] < 0x80
    ensures Dead(buf, i)
  {
    DeadStep(buf, i);
  }

  /** Behind the message the buffer holds a filler that ends the walk as well. */
  predicate FilledFrom(buf: seq<Byte>, i: nat) {
    forall k :: i <= k < |buf| ==> buf[k] == 0x7F
  }

  lemma DeadInFiller(buf: seq<Byte>, i: nat)
    requires |buf| == MAXLINE && FilledFrom(buf, i)
    ensures Dead(buf, i)
  {
    if i + 4 <= MAXLINE {
      DeadJump(buf, i);
    }
  }

  /** The bytes that follow begin another skewed attribute, or the address with nothing but
      filler behind it. */
  ghost predicate Follows(buf: seq<Byte>, i: nat) {
    && i + 4 <= |buf|
    && ((buf[i] == 0x7F && buf[i + 1] == 0x7F)
        || (buf[i] == 0 && buf[i + 1] == 0x20 && buf[i + 2] == 0 && FilledFrom(buf, i + 12)))
  }

  /** Whatever follows a skewed attribute, the walk that lands in its padding is lost. */
  lemma DeadInPadding(buf: seq<Byte>, i: nat, length: nat)
    requires |buf| == MAXLINE && length < 0x1_0000 && PaddingFor(length) != 0
    requires At(buf, i, EncodeAttribute(Skewed(length)))
    requires Follows(buf, i + 4 + length + PaddingFor(length))
    ensures Dead(buf, i + 4 + length)
  {
    var p, land, e := PaddingFor(length), i + 4 + length, EncodeAttribute(Skewed(length));
    AtByte(buf, i, e, 4 + length);
    assert buf[land] == 1 && Short(buf[land], buf[land + 1]) != XOR_MAPPED_ADDRESS;
    if p == 2 {
      if buf[land + 2] == 0 {
        DeadInFiller(buf, land + 36);
        DeadStep(buf, land);
      } else {
        DeadJump(buf, land);
      }
    } else {
      if p == 3 {
        AtByte(buf, i, e, 4 + length + 2);
      }
      DeadJump(buf, land);
    }
  }

  /** The buffer continues at index i with skewed attributes, an address and the filler. */
  ghost predicate Misleads(buf: seq<Byte>, i: nat, lengths: seq<nat>, address: seq<Byte>) {
    && Short16(lengths) && |address| == 12 && address[0] == 0 && address[1] == 0x20 && address[2] == 0
    && At(buf, i, EncodeAll(Skewing(lengths)) + address)
    && FilledFrom(buf, i + |EncodeAll(Skewing(lengths))| + 12)
  }

  lemma RestMisleads(buf: seq<Byte>, i: nat, lengths: seq<nat>, address: seq<Byte>, next: nat)
    requires lengths != [] && Misleads(buf, i, lengths, address)
    requires next == i + 4 + lengths[0] + PaddingFor(lengths[0])
    ensures At(buf, i, EncodeAttribute(Skewed(lengths[0])))
    ensures Misleads(buf, next, lengths[1..], address)
  {
    Seqs.Cons(Skewed(lengths[0]), Skewing(lengths[1..]));
    FirstAttributeAt(buf, i, Skewing(lengths), address);
  }

  lemma MisleadingFollows(buf: seq<Byte>, i: nat, lengths: seq<nat>, address: seq<Byte>)
    requires Misleads(buf, i, lengths, address)
    ensures Follows(buf, i)
  {
    if lengths == [] {
      Seqs.NilLeft(address);
      AtByte(buf, i, address, 0);
      AtByte(buf, i, address, 1);
      AtByte(buf, i, address, 2);
    } else {
      RestMisleads(buf, i, lengths, address, i + 4 + lengths[0] + PaddingFor(lengths[0]));
      AtByte(buf, i, EncodeAttribute(Skewed(lengths[0])), 0);
      AtByte(buf, i, EncodeAttribute(Skewed(lengths[0])), 1);
    }
  }

  lemma FirstIsLost(buf: seq<Byte>, i: nat, lengths: seq<nat>, address: seq<Byte>, land: nat)
    requires |buf| == MAXLINE && lengths != [] && Misleads(buf, i, lengths, address)
    requires PaddingFor(lengths[0]) != 0 && land == i + 4 + lengths[0]
    ensures At(buf, i, EncodeAttribute(Skewed(lengths[0]))) && Dead(buf, land)
  {
    var next := land + PaddingFor(lengths[0]);
    RestMisleads(buf, i, lengths, address, next);
    MisleadingFollows(buf, next, lengths[1..], address);
    DeadInPadding(buf, i, lengths[0]);
  }

  lemma {:induction false} SkewedIsLost(buf: seq<Byte>, i: nat, lengths: seq<nat>, address: seq<Byte>)
    requires |buf| == MAXLINE && Misleads(buf, i, lengths, address) && !AllAligned(lengths)
    ensures Dead(buf, i)
    decreases |lengths|
  {
    AlignedParts(lengths);
    var land := i + 4 + lengths[0];
    if PaddingFor(lengths[0]) == 0 {
      RestMisleads(buf, i, lengths, address, land);
      SkewedIsLost(buf, land, lengths[1..], address);
    } else {
      FirstIsLost(buf, i, lengths, address, land);
    }
    DeadBehind(buf, i, lengths[0], land);
  }

  lemma {:induction false} SizeOfSkewing(lengths: seq<nat>)
    requires Short16(lengths)
    ensures |EncodeAll(Skewing(lengths))| == Size(lengths)
  {
    if lengths != [] {
      SizeOfSkewing(lengths[1..]);
      Seqs.Cons(Skewed(lengths[0]), Skewing(lengths[1..]));
    }
  }

  lemma {:induction false} FittingIsShort(lengths: seq<nat>)
    ensures Size(lengths) < 0x1_0000 ==> Short16(lengths)
  {
    if lengths != [] {
      FittingIsShort(lengths[1..]);
      forall k | 0 < k < |lengths| ensures lengths[k] == lengths[1..][k - 1] {
      }
    }
  }

  lemma {:induction false} SizeInWords(lengths: seq<nat>)
    ensures Size(lengths) % 4 == 0
  {
    if lengths != [] {
      SizeInWords(lengths[1..]);
      assert (lengths[0] + PaddingFor(lengths[0])) % 4 == 0;
    }
  }

  /** A response of every misaligned shape, ending with the address, that the code does not
      decode. */
  lemma SomeResponseIsLost(lengths: seq<nat>) returns (buf: seq<Byte>, id: seq<Byte>, before: seq<Attribute>)
    requires Fits(lengths) && !AllAligned(lengths)
    ensures IsResponse(buf, lengths, Size(lengths) + 12, id, before, Address(0, 0, 0, 0), 0)
    ensures !IsDecoded(buf, Address(0, 0, 0, 0))
  {
    FittingIsShort(lengths);
    SizeOfSkewing(lengths);
    SizeInWords(lengths);
    id, before := seq(12, _ => 0), Skewing(lengths);
    var message := Response(Size(lengths) + 12, id, before, Address(0, 0, 0, 0), 0);
    assert |message| == 20 + (Size(lengths) + 12);
    buf := Filled(message);
    LostInFiller(buf, lengths, id);
  }

  /** The message at the front of a buffer full of filler. */
  function Filled(message: seq<Byte>): (buf: seq<Byte>)
    requires |message| <= MAXLINE
    ensures |buf| == MAXLINE && At(buf, 0, message) && FilledFrom(buf, |message|)
  {
    var filler: seq<Byte> := seq(MAXLINE - |message|, _ => 0x7F);
    Seqs.Split(message, filler);
    message + filler
  }

  lemma AddressBegins(ip: Address, xport: Word)
    ensures var e := EncodeAttribute(XorMappedAddress(ip, xport));
      |e| == 12 && e[0] == 0 && e[1] == 0x20 && e[2] == 0
  {
  }

  lemma LostInFiller(buf: seq<Byte>, lengths: seq<nat>, id: seq<Byte>)
    requires |buf| == MAXLINE && |id| == 12 && Fits(lengths) && Short16(lengths) && !AllAligned(lengths)
    requires At(buf, 0, Response(Size(lengths) + 12, id, Skewing(lengths), Address(0, 0, 0, 0), 0))
    requires FilledFrom(buf, 20 + (Size(lengths) + 12))
    ensures !IsDecoded(buf, Address(0, 0, 0, 0))
  {
    var ip := Address(0, 0, 0, 0);
    var address := EncodeAttribute(XorMappedAddress(ip, 0));
    SizeOfSkewing(lengths);
    ReadsHeader(buf, Size(lengths) + 12, id, Skewing(lengths), ip, 0);
    AddressBegins(ip, 0);
    SkewedIsLost(buf, 20, lengths, address);
    DeadIsNotDecoded(buf, ip);
  }

  lemma DeadIsNotDecoded(buf: seq<Byte>, ip: Address)
    requires |buf| == MAXLINE && Dead(buf, 20)
    ensures !IsDecoded(buf, ip)
  {
    forall turns: nat ensures Decode(buf, turns) != Found(Text4(ip)) {
      assert !Walk(buf, 20, turns).AtAddress?;
    }
  }

  /** A shape of response is always decoded exactly when the attributes in front of the
      address have lengths that are multiples of four. */
  lemma AlwaysDecodesIffAligned(lengths: seq<nat>)
    requires Fits(lengths)
    ensures AlwaysDecodes(lengths) <==> AllAligned(lengths)
  {
    if AllAligned(lengths) {
      forall buf, length, id, before, ip, xport | IsResponse(buf, lengths, length, id, before, ip, xport)
        ensures IsDecoded(buf, ip)
      {
        DecodesResponse(buf, length, id, before, ip, xport);
      }
    } else {
      var buf, id, before := SomeResponseIsLost(lengths);
    }
  }
}
