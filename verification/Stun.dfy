/** Reading the public address out of a STUN binding response (sections 6, 15 and 15.2 of
    RFC 5389). The walk advances by the attribute's length alone, without the padding. */
module Stun {
  import opened Bytes
  import Text
  import Seqs

  // ---------- the message, as the RFC defines it ----------

  const BINDING_SUCCESS := 0x0101
  const XOR_MAPPED_ADDRESS := 0x0020
  const MAGIC: seq<Byte> := [0x21, 0x12, 0xA4, 0x42]

  /** An attribute, with the padding that follows its value on the wire. */
  datatype Attribute = Attribute(kind: Word, value: seq<Byte>, padding: seq<Byte>)

  function WordBytes(w: Word): (r: seq<Byte>)
    ensures |r| == 2
  {
    [w / 0x100, w % 0x100]
  }

  predicate WellFormed(a: Attribute) {
    |a.value| < 0x1_0000 && |a.padding| < 4 && (|a.value| + |a.padding|) % 4 == 0
  }

  function EncodeAttribute(a: Attribute): (r: seq<Byte>)
    requires WellFormed(a)
    ensures |r| == 4 + |a.value| + |a.padding|
  {
    WordBytes(a.kind) + WordBytes(|a.value|) + a.value + a.padding
  }

  predicate AllWellFormed(attributes: seq<Attribute>) {
    forall k :: 0 <= k < |attributes| ==> WellFormed(attributes[k])
  }

  function EncodeAll(attributes: seq<Attribute>): seq<Byte>
    requires AllWellFormed(attributes)
  {
    if attributes == [] then [] else EncodeAttribute(attributes[0]) + EncodeAll(attributes[1..])
  }

  /** The four octets of an IPv4 address. */
  datatype Address = Address(a: bv8, b: bv8, c: bv8, d: bv8)

  /** The IPv4 form of section 15.2: family, port and address, both combined with the
      magic cookie. The port, given as it travels, is not read. */
  function XorMappedAddress(ip: Address, xport: Word): (r: Attribute)
    ensures WellFormed(r) && |r.value| == 8
  {
    Attribute(XOR_MAPPED_ADDRESS, AddressValue(ip, xport), [])
  }

  function AddressValue(ip: Address, xport: Word): (v: seq<Byte>)
    ensures |v| == 8 && v[0] == 0 && v[1] == 1 && v[2] == xport / 0x100 && v[3] == xport % 0x100
    ensures v[4] == (ip.a ^ 0x21) as int && v[5] == (ip.b ^ 0x12) as int
    ensures v[6] == (ip.c ^ 0xA4) as int && v[7] == (ip.d ^ 0x42) as int
  {
    [0, 1, xport / 0x100, xport % 0x100,
     (ip.a ^ 0x21) as int, (ip.b ^ 0x12) as int, (ip.c ^ 0xA4) as int, (ip.d ^ 0x42) as int]
  }

  // ---------- the walk ----------

  const MAXLINE := 200

  /** What the caller gets: the address as text, or why there is none. */
  datatype Outcome =
    | Found(text: string)
    | NoAddress
    | OutOfBuffer
    | Unfinished

  /** Where the walk stops: at an XOR-MAPPED-ADDRESS, outside the buffer, so near its end
      that a type or a length would be read outside, or not yet. */
  datatype Stop =
    | AtAddress(i: nat)
    | PastEnd
    | NearEnd
    | Walking

  function Dotted(a: Byte, b: Byte, c: Byte, d: Byte): string {
    Text.Decimal(a) + "." + Text.Decimal(b) + "." + Text.Decimal(c) + "." + Text.Decimal(d)
  }

  /** A big-endian `short`, which is signed. */
  function Short(hi: Byte, lo: Byte): int {
    var w := 0x100 * (hi as int) + lo;
    if w >= 0x8000 then w - 0x1_0000 else w
  }

  /** The walk from index i, for at most so many turns. A negative index ends it: the
      comparison with the buffer's size is unsigned. */
  function Walk(buf: seq<Byte>, i: int, turns: nat): (s: Stop)
    requires |buf| == MAXLINE
    ensures s.AtAddress? ==> s.i + 4 <= MAXLINE
    decreases turns
  {
    if !(0 <= i < MAXLINE) then PastEnd
    else if i + 4 > MAXLINE then NearEnd
    else if Short(buf[i], buf[i + 1]) == XOR_MAPPED_ADDRESS then AtAddress(i)
    else if turns == 0 then Walking
    else Walk(buf, i + 4 + Short(buf[i + 2], buf[i + 3]), turns - 1)
  }

  function AddressAt(buf: seq<Byte>, i: nat): Outcome
    requires |buf| == MAXLINE
  {
    if i + 12 > MAXLINE then OutOfBuffer
    else Found(Dotted(Xor(buf[i + 8], 0x21), Xor(buf[i + 9], 0x12), Xor(buf[i + 10], 0xA4), Xor(buf[i + 11], 0x42)))
  }

  function OutcomeOf(buf: seq<Byte>, stop: Stop): Outcome
    requires |buf| == MAXLINE
  {
    match stop
    case AtAddress(i) => AddressAt(buf, i)
    case PastEnd => NoAddress
    case NearEnd => OutOfBuffer
    case Walking => Unfinished
  }

  function Decode(buf: seq<Byte>, turns: nat): Outcome
    requires |buf| == MAXLINE
  {
    if Short(buf[0], buf[1]) == BINDING_SUCCESS then OutcomeOf(buf, Walk(buf, 20, turns)) else NoAddress
  }

  /** The indices at which a walk can go on: four bytes must be left. */
  const MAX_TURNS := MAXLINE - 3

  /** The receive buffer read in place. The source counts no turns: the loop is left here
      where the walk is known to go round for ever. */
  method StunGetPublicIp(buf: array<Byte>) returns (r: Outcome)
    requires buf.Length == MAXLINE
    ensures r == Decode(buf[..], MAX_TURNS)
    ensures r == Unfinished <==> forall turns :: Decode(buf[..], turns) == Unfinished
  {
    DecodeTermination(buf[..]);
    r := NoAddress;
    if Short(buf[0], buf[1]) == BINDING_SUCCESS {
      var i, turns := 20, MAX_TURNS;
      while 0 <= i < MAXLINE
        invariant turns >= 0 && Walk(buf[..], i, turns) == Walk(buf[..], 20, MAX_TURNS) && r == NoAddress
        decreases turns
      {
        if i + 4 > MAXLINE {
          return OutOfBuffer;
        }
        var attrType := Short(buf[i], buf[i + 1]);
        var attrLength := Short(buf[i + 2], buf[i + 3]);
        if attrType == XOR_MAPPED_ADDRESS {
          if i + 12 > MAXLINE {
            return OutOfBuffer;
          }
          r := Found(Dotted(Xor(buf[i + 8], 0x21), Xor(buf[i + 9], 0x12), Xor(buf[i + 10], 0xA4), Xor(buf[i + 11], 0x42)));
          return;
        }
        if turns == 0 {
          return Unfinished;
        }
        i := i + 4 + attrLength;
        turns := turns - 1;
      }
    }
  }

  // ---------- when the walk ends ----------

  /** A walk that has ended is not changed by more turns. */
  lemma {:induction false} MoreTurns(buf: seq<Byte>, i: int, turns: nat, more: nat)
    requires |buf| == MAXLINE && turns <= more && Walk(buf, i, turns) != Walking
    ensures Walk(buf, i, more) == Walk(buf, i, turns)
    decreases turns
  {
    if GoesOn(buf, i) {
      MoreTurns(buf, Next(buf, i), turns - 1, more - 1);
    }
  }

  predicate GoesOn(buf: seq<Byte>, i: int)
    requires |buf| == MAXLINE
  {
    0 <= i && i + 4 <= MAXLINE && Short(buf[i], buf[i + 1]) != XOR_MAPPED_ADDRESS
  }

  function Next(buf: seq<Byte>, i: int): int
    requires |buf| == MAXLINE && GoesOn(buf, i)
  {
    i + 4 + Short(buf[i + 2], buf[i + 3])
  }

  /** Where the walk from index i is after so many turns, or has ended before. */
  function Position(buf: seq<Byte>, i: int, turns: nat): int
    requires |buf| == MAXLINE
    decreases turns
  {
    if turns == 0 || !GoesOn(buf, i) then i else Position(buf, Next(buf, i), turns - 1)
  }

  lemma {:induction false} WalkFromPosition(buf: seq<Byte>, i: int, turns: nat, more: nat)
    requires |buf| == MAXLINE && Walk(buf, i, turns) == Walking
    ensures GoesOn(buf, Position(buf, i, turns))
    ensures Walk(buf, i, turns + more) == Walk(buf, Position(buf, i, turns), more)
    decreases turns
  {
    if turns > 0 {
      WalkFromPosition(buf, Next(buf, i), turns - 1, more);
    }
  }

  lemma {:induction false} StillWalking(buf: seq<Byte>, i: int, turns: nat)
    requires |buf| == MAXLINE && GoesOn(buf, Position(buf, i, turns))
    ensures Walk(buf, i, turns) == Walking
    decreases turns
  {
    if turns > 0 {
      StillWalking(buf, Next(buf, i), turns - 1);
    }
  }

  /** The walk is at the same index after a and after b turns, and goes on. */
  ghost predicate Revisits(buf: seq<Byte>, i: int, a: nat, b: nat)
    requires |buf| == MAXLINE
  {
    a < b && GoesOn(buf, Position(buf, i, b)) && Position(buf, i, a) == Position(buf, i, b)
  }

  lemma {:induction false} RevisitNeverEnds(buf: seq<Byte>, i: int, a: nat, b: nat, turns: nat)
    requires |buf| == MAXLINE && Revisits(buf, i, a, b)
    ensures Walk(buf, i, turns) == Walking
    decreases turns
  {
    StillWalking(buf, i, b);
    if turns > b {
      StillWalking(buf, i, a);
      WalkFromPosition(buf, i, b, turns - b);
      WalkFromPosition(buf, i, a, turns - b);
      RevisitNeverEnds(buf, i, a, b, a + (turns - b));
    } else if Walk(buf, i, turns) != Walking {
      MoreTurns(buf, i, turns, b);
    }
  }

  lemma LongWalkRevisits(buf: seq<Byte>, i: int) returns (a: nat, b: nat)
    requires |buf| == MAXLINE && Walk(buf, i, MAX_TURNS) == Walking
    ensures b <= MAX_TURNS && Revisits(buf, i, a, b)
  {
    var positions := seq(MAX_TURNS + 1, turns requires 0 <= turns => Position(buf, i, turns));
    forall turns | 0 <= turns <= MAX_TURNS ensures GoesOn(buf, positions[turns]) {
      if Walk(buf, i, turns) != Walking {
        MoreTurns(buf, i, turns, MAX_TURNS);
      }
      WalkFromPosition(buf, i, turns, 0);
    }
    Seqs.Pigeonhole(positions, MAX_TURNS);
    a, b :| 0 <= a < b < |positions| && positions[a] == positions[b];
  }

  /** Exactly when the walk ends, from any index: within MAX_TURNS turns, or never; and it
      never ends if and only if it comes back to an index. */
  lemma Termination(buf: seq<Byte>, i: int)
    requires |buf| == MAXLINE
    ensures (exists turns :: Walk(buf, i, turns) != Walking) <==> Walk(buf, i, MAX_TURNS) != Walking
    ensures Walk(buf, i, MAX_TURNS) == Walking <==> exists a, b :: Revisits(buf, i, a, b)
  {
    if Walk(buf, i, MAX_TURNS) == Walking {
      var a, b := LongWalkRevisits(buf, i);
      forall turns: nat ensures Walk(buf, i, turns) == Walking {
        RevisitNeverEnds(buf, i, a, b, turns);
      }
    }
    if a, b :| Revisits(buf, i, a, b) {
      RevisitNeverEnds(buf, i, a, b, MAX_TURNS);
    }
  }

  lemma DecodeTermination(buf: seq<Byte>)
    requires |buf| == MAXLINE
    ensures Decode(buf, MAX_TURNS) == Unfinished <==> forall turns :: Decode(buf, turns) == Unfinished
  {
    Termination(buf, 20);
    if Decode(buf, MAX_TURNS) == Unfinished {
      forall turns: nat ensures Decode(buf, turns) == Unfinished {
        assert Walk(buf, 20, turns) == Walking;
      }
    }
  }

  lemma {:induction false} StopsAtPosition(buf: seq<Byte>, i: int, turns: nat)
    requires |buf| == MAXLINE
    ensures var p := Position(buf, i, turns);
      Walk(buf, i, turns) == if p < 0 || p >= 200 then PastEnd else if p > 196 then NearEnd
        else if buf[p] == 0 && buf[p + 1] == 0x20 then AtAddress(p) else Walking
    decreases turns
  {
    if turns > 0 && GoesOn(buf, i) {
      StopsAtPosition(buf, Next(buf, i), turns - 1);
    }
  }

  /** Every outcome, from the index at which the walk is in the end: no address for any
      other message than 0x0101 and for a walk that has left the buffer; a read outside for
      one that stops too near its end; otherwise the address, or a walk without end. */
  lemma EveryOutcome(buf: seq<Byte>)
    requires |buf| == MAXLINE
    ensures buf[0] != 1 || buf[1] != 1 ==> Decode(buf, MAX_TURNS) == NoAddress
    ensures var p := Position(buf, 20, MAX_TURNS);
      buf[0] == 1 && buf[1] == 1 ==>
        Decode(buf, MAX_TURNS) ==
          if p < 0 || p >= 200 then NoAddress
          else if p >= 197 then OutOfBuffer
          else if buf[p] != 0 || buf[p + 1] != 0x20 then Unfinished
          else if p >= 189 then OutOfBuffer
          else AddressAt(buf, p)
  {
    StopsAtPosition(buf, 20, MAX_TURNS);
  }

  /** The address attribute at index p: bytes 8 to 11, unmasked, in decimal and dotted. */
  lemma AddressIsText(buf: seq<Byte>, p: nat)
    requires |buf| == MAXLINE && p <= 188
    ensures AddressAt(buf, p) == Found(
      Text.Decimal(((buf[p + 8] as bv8) ^ 0x21) as int) + "." + Text.Decimal(((buf[p + 9] as bv8) ^ 0x12) as int)
      + "." + Text.Decimal(((buf[p + 10] as bv8) ^ 0xA4) as int) + "."
      + Text.Decimal(((buf[p + 11] as bv8) ^ 0x42) as int))
  {
  }

  /** An attribute of length -4 is its own successor, wherever the walk meets it. */
  lemma MayNeverEnd(buf: seq<Byte>, i: int, turns: nat)
    requires |buf| == MAXLINE && GoesOn(buf, i) && buf[i + 2] == 0xFF && buf[i + 3] == 0xFC
    ensures Walk(buf, i, turns) == Walking
  {
    assert Next(buf, i) == i && Position(buf, i, 1) == i;
    RevisitNeverEnds(buf, i, 0, 1, turns);
  }

  /** The turns that attributes of no length would take from index i to the end. */
  function TurnsLeft(i: nat): nat
    requires i <= MAXLINE
  {
    (MAXLINE - i + 3) / 4
  }

  /** With every byte below 0x80 no length is negative, and each turn advances by at least
      four bytes. */
  lemma {:induction false} LowBytesEnd(buf: seq<Byte>, i: nat)
    requires |buf| == MAXLINE && i <= MAXLINE && forall k :: 0 <= k < MAXLINE ==> buf[k] < 0x80
    ensures Walk(buf, i, TurnsLeft(i)) != Walking
    decreases MAXLINE - i
  {
    if GoesOn(buf, i) {
      var next := Next(buf, i);
      assert next >= i + 4 && TurnsLeft(i) >= 1;
      assert Walk(buf, next, TurnsLeft(i) - 1) != Walking by {
        if next < MAXLINE {
          LowBytesEnd(buf, next);
          assert TurnsLeft(next) <= TurnsLeft(i) - 1;
          MoreTurns(buf, next, TurnsLeft(next), TurnsLeft(i) - 1);
        }
      }
    }
  }

  // ---------- decoding what was encoded ----------

  /** `part` occurs in the buffer at index i. */
  predicate At(buf: seq<Byte>, i: nat, part: seq<Byte>) {
    i + |part| <= |buf| && buf[i..i + |part|] == part
  }

  lemma AtSplit(buf: seq<Byte>, i: nat, a: seq<Byte>, b: seq<Byte>)
    requires At(buf, i, a + b)
    ensures At(buf, i, a) && At(buf, i + |a|, b)
  {
    assert (a + b)[..|a|] == a && (a + b)[|a|..] == b;
  }

  lemma AtParts(buf: seq<Byte>, i: nat, all: seq<Byte>, first: seq<Byte>, rest: seq<Byte>, tail: seq<Byte>)
    requires all == first + rest && At(buf, i, all + tail)
    ensures At(buf, i, first) && At(buf, i + |first|, rest + tail) && |all| == |first| + |rest|
  {
    Seqs.Assoc(first, rest, tail);
    AtSplit(buf, i, first, rest + tail);
  }

  lemma AtByte(buf: seq<Byte>, i: nat, part: seq<Byte>, k: nat)
    requires At(buf, i, part) && k < |part|
    ensures buf[i + k] == part[k]
  {
    assert buf[i..i + |part|][k] == buf[i + k];
  }

  /** The type and the length of an attribute as the walk reads them. */
  lemma HeaderAt(buf: seq<Byte>, i: nat, a: Attribute)
    requires |buf| == MAXLINE && WellFormed(a) && At(buf, i, EncodeAttribute(a))
    ensures i + 4 <= MAXLINE && Short(buf[i + 2], buf[i + 3]) == |a.value|
    ensures Short(buf[i], buf[i + 1]) == XOR_MAPPED_ADDRESS <==> a.kind == XOR_MAPPED_ADDRESS
    ensures i + 4 + |a.value| + |a.padding| <= MAXLINE
  {
    var e := EncodeAttribute(a);
    AtByte(buf, i, e, 0);
    AtByte(buf, i, e, 1);
    AtByte(buf, i, e, 2);
    AtByte(buf, i, e, 3);
  }

  /** A response up to its first XOR-MAPPED-ADDRESS. */
  function Response(length: Word, id: seq<Byte>, before: seq<Attribute>, ip: Address, xport: Word): seq<Byte>
    requires |id| == 12 && AllWellFormed(before)
  {
    WordBytes(BINDING_SUCCESS) + WordBytes(length) + MAGIC + id
      + (EncodeAll(before) + EncodeAttribute(XorMappedAddress(ip, xport)))
  }

  lemma ReadsHeader(buf: seq<Byte>, length: Word, id: seq<Byte>, before: seq<Attribute>, ip: Address, xport: Word)
    requires |buf| == MAXLINE && |id| == 12 && AllWellFormed(before)
    requires At(buf, 0, Response(length, id, before, ip, xport))
    ensures Short(buf[0], buf[1]) == BINDING_SUCCESS
    ensures At(buf, 20, EncodeAll(before) + EncodeAttribute(XorMappedAddress(ip, xport)))
  {
    var header := WordBytes(BINDING_SUCCESS) + WordBytes(length) + MAGIC + id;
    AtSplit(buf, 0, header, EncodeAll(before) + EncodeAttribute(XorMappedAddress(ip, xport)));
    AtByte(buf, 0, header, 0);
    AtByte(buf, 0, header, 1);
  }

  predicate NoneIsAddress(attributes: seq<Attribute>) {
    forall k :: 0 <= k < |attributes| ==> attributes[k].kind != XOR_MAPPED_ADDRESS
  }

  predicate Aligned(attributes: seq<Attribute>) {
    forall k :: 0 <= k < |attributes| ==> |attributes[k].value| % 4 == 0
  }

  function Text4(ip: Address): string {
    Dotted(ip.a as int, ip.b as int, ip.c as int, ip.d as int)
  }

  lemma ReadsAddress(buf: seq<Byte>, i: nat, ip: Address, xport: Word)
    requires |buf| == MAXLINE && At(buf, i, EncodeAttribute(XorMappedAddress(ip, xport)))
    ensures AddressAt(buf, i) == Found(Text4(ip))
  {
    var v, e := AddressValue(ip, xport), EncodeAttribute(XorMappedAddress(ip, xport));
    AddressLayout(ip, xport);
    AtSplit(buf, i, [0x00, 0x20, 0x00, 0x08], v);
    ReadsValue(buf, i, v);
    XorUndoes(ip.a, 0x21, v[4]);
    XorUndoes(ip.b, 0x12, v[5]);
    XorUndoes(ip.c, 0xA4, v[6]);
    XorUndoes(ip.d, 0x42, v[7]);
  }

  lemma AddressLayout(ip: Address, xport: Word)
    ensures EncodeAttribute(XorMappedAddress(ip, xport)) == [0x00, 0x20, 0x00, 0x08] + AddressValue(ip, xport)
  {
    var v := AddressValue(ip, xport);
    Seqs.NilRight(WordBytes(0x0020) + WordBytes(8) + v);
    assert WordBytes(0x0020) + WordBytes(8) == [0x00, 0x20, 0x00, 0x08];
  }

  lemma ReadsValue(buf: seq<Byte>, i: nat, v: seq<Byte>)
    requires |buf| == MAXLINE && |v| == 8 && At(buf, i + 4, v)
    ensures i + 12 <= MAXLINE && AddressAt(buf, i) ==
      Found(Dotted(Xor(v[4], 0x21), Xor(v[5], 0x12), Xor(v[6], 0xA4), Xor(v[7], 0x42)))
  {
    AtByte(buf, i + 4, v, 4);
    AtByte(buf, i + 4, v, 5);
    AtByte(buf, i + 4, v, 6);
    AtByte(buf, i + 4, v, 7);
  }

  /** Two encoded parts of a list: its first attribute and the rest. */
  lemma FirstAttributeAt(buf: seq<Byte>, i: nat, attributes: seq<Attribute>, tail: seq<Byte>)
    requires attributes != [] && AllWellFormed(attributes) && At(buf, i, EncodeAll(attributes) + tail)
    ensures At(buf, i, EncodeAttribute(attributes[0]))
    ensures At(buf, i + |EncodeAttribute(attributes[0])|, EncodeAll(attributes[1..]) + tail)
    ensures |EncodeAll(attributes)| == |EncodeAttribute(attributes[0])| + |EncodeAll(attributes[1..])|
  {
    var all, first, rest := EncodeAll(attributes), EncodeAttribute(attributes[0]), EncodeAll(attributes[1..]);
    AtParts(buf, i, all, first, rest, tail);
  }

  lemma SkipsAttribute(buf: seq<Byte>, i: nat, a: Attribute, turns: nat)
    requires |buf| == MAXLINE && turns > 0 && WellFormed(a) && At(buf, i, EncodeAttribute(a))
    requires a.kind != XOR_MAPPED_ADDRESS
    ensures Walk(buf, i, turns) == Walk(buf, i + 4 + |a.value|, turns - 1)
  {
    HeaderAt(buf, i, a);
  }

  lemma SkipsAligned(buf: seq<Byte>, i: nat, a: Attribute, turns: nat, next: nat)
    requires |buf| == MAXLINE && turns > 0 && WellFormed(a) && At(buf, i, EncodeAttribute(a))
    requires a.kind != XOR_MAPPED_ADDRESS && |a.value| % 4 == 0 && next == i + |EncodeAttribute(a)|
    ensures Walk(buf, i, turns) == Walk(buf, next, turns - 1)
  {
    assert a.padding == [];
    SkipsAttribute(buf, i, a, turns);
  }

  /** The walk passes aligned attributes of other types, up to their end. */
  lemma {:induction false} WalkPasses(buf: seq<Byte>, i: nat, before: seq<Attribute>, tail: seq<Byte>, end: nat)
    requires |buf| == MAXLINE && AllWellFormed(before) && NoneIsAddress(before) && Aligned(before)
    requires At(buf, i, EncodeAll(before) + tail) && end == i + |EncodeAll(before)|
    ensures Walk(buf, i, |before|) == Walk(buf, end, 0)
    decreases |before|
  {
    if before != [] {
      var next := i + |EncodeAttribute(before[0])|;
      FirstAttributeAt(buf, i, before, tail);
      SkipsAligned(buf, i, before[0], |before|, next);
      WalkPasses(buf, next, before[1..], tail, end);
    }
  }

  lemma DecodesResponse(buf: seq<Byte>, length: Word, id: seq<Byte>, before: seq<Attribute>, ip: Address, xport: Word)
    requires |buf| == MAXLINE && |id| == 12 && AllWellFormed(before)
    requires NoneIsAddress(before) && Aligned(before)
    requires At(buf, 0, Response(length, id, before, ip, xport))
    ensures Decode(buf, |before|) == Found(Text4(ip))
  {
    ReadsHeader(buf, length, id, before, ip, xport);
    var x, j := XorMappedAddress(ip, xport), 20 + |EncodeAll(before)|;
    WalkPasses(buf, 20, before, EncodeAttribute(x), j);
    AtSplit(buf, 20, EncodeAll(before), EncodeAttribute(x));
    HeaderAt(buf, j, x);
    ReadsAddress(buf, j, ip, xport);
  }

  lemma SameHeader(length: Word, id: seq<Byte>)
    ensures WordBytes(BINDING_SUCCESS) + WordBytes(length) + MAGIC + id
      == [0x01, 0x01] + [length / 0x100, length % 0x100] + [0x21, 0x12, 0xA4, 0x42] + id
  {
    assert WordBytes(BINDING_SUCCESS) == [0x01, 0x01];
  }

  /** Decoding inverts encoding, with the bytes of the message written out: the walk stops
      at the first XOR-MAPPED-ADDRESS and returns its address as dotted decimal text,
      whatever follows it in the buffer. */
  lemma DecodeInvertsEncode(buf: seq<Byte>, length: Word, id: seq<Byte>, before: seq<Attribute>, ip: Address, xport: Word,
                            value: seq<Byte>)
    requires |buf| == MAXLINE && |id| == 12 && AllWellFormed(before)
    requires NoneIsAddress(before) && Aligned(before)
    requires value == [0x00, 0x01, xport / 0x100, xport % 0x100, (ip.a ^ 0x21) as int, (ip.b ^ 0x12) as int,
                       (ip.c ^ 0xA4) as int, (ip.d ^ 0x42) as int]
    requires At(buf, 0,
      [0x01, 0x01] + [length / 0x100, length % 0x100] + [0x21, 0x12, 0xA4, 0x42] + id
      + (EncodeAll(before) + ([0x00, 0x20, 0x00, 0x08] + value)))
    ensures Decode(buf, |before|) == Found(Text.Decimal(ip.a as int) + "." + Text.Decimal(ip.b as int) + "."
      + Text.Decimal(ip.c as int) + "." + Text.Decimal(ip.d as int))
  {
    AddressLayout(ip, xport);
    SameHeader(length, id);
    DecodesResponse(buf, length, id, before, ip, xport);
  }
}
