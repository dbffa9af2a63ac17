/**
  An encoder for whole LATM frames (section 1.7 of ISO/IEC 14496-3) in both
  mux versions, and the proof that `LOASParse` gives back what was encoded.
 */
module LatmFrames {
  import opened BitWords
  import opened BitReader
  import opened LatmSyntax
  import opened Latm
  import opened LatmEncode

  /* ---------- StreamMuxConfig ---------- */

  /** The frame length type with its fields. */
  datatype Length =
    | Variable(fullness: nat, offset: nat)
    | Fixed(length: nat)
    | Celp(kind: nat, index: nat)
    | Hvxc(kind: nat, index: nat)

  /** What version 1 adds: a buffer fullness, an announced size, and what the size leaves room for. */
  datatype Sized = Sized(tara: seq<nat>, size: seq<nat>, extension: Option<Extension>, fill: seq<bool>)

  /** Version 1 when `sized`; `more` is how many subframes there are beside the first. */
  datatype MuxSyntax = MuxSyntax(sized: Option<Sized>, sameTime: bool, more: nat, asc: Asc, length: Length,
                                 other: seq<nat>, crc: Option<nat>)

  predicate ValidLength(l: Length) {
    match l
    case Variable(f, o) => f < 256 && o < 64
    case Fixed(n) => n < 512
    case Celp(kind, index) => 3 <= kind <= 5 && index < 64
    case Hvxc(kind, index) => 6 <= kind <= 7 && index < 2
  }

  predicate ValidBytes(s: seq<nat>) { forall i | 0 <= i < |s| :: s[i] < 256 }

  /**
    The announced size covers the configuration, the extension and the fill
    bits, and those leave the code no room to look for an extension that is not there.
   */
  predicate ValidSized(z: Sized, a: Asc, p: nat) {
    && |z.tara| <= 3 && ValidBytes(z.tara) && |z.size| <= 3 && ValidBytes(z.size) && |z.fill| <= 32
    && Number(z.size, 0) == |EncodeAsc(a, p)| + |ExtensionBits(z)| + |z.fill|
    && match z.extension
       case None => a.sbr.Some? || |z.fill| < 16
       case Some(e) => a.sbr.None? && ValidExtension(e) && (e.rate.Some? && e.ps.None? ==> |z.fill| < 12)
  }

  /** A StreamMuxConfig from position `p` on. */
  predicate ValidMux(m: MuxSyntax, p: nat) {
    && m.more < 64 && ValidAsc(m.asc) && ValidLength(m.length)
    && ValidBytes(m.other) && (m.crc.Some? ==> m.crc.value < 256)
    && (m.sized.Some? ==> |m.other| <= 3 && ValidSized(m.sized.value, m.asc, AscPosition(m, p)))
  }

  /** A variable length has an offset for some object types, without same-time framing. */
  predicate HasOffset(sameTime: bool, objectType: nat) { !sameTime && objectType in {6, 20, 8, 24} }

  function EncodeLength(l: Length, offset: bool): seq<bool> {
    match l
    case Variable(f, o) => ToBits(0, 3) + (ToBits(f, 8) + if offset then ToBits(o, 6) else [])
    case Fixed(n) => ToBits(1, 3) + ToBits(n, 9)
    case Celp(kind, index) => ToBits(kind, 3) + ToBits(index, 6)
    case Hvxc(kind, index) => ToBits(kind, 3) + ToBits(index, 1)
  }

  /** Bytes, each after a flag that says whether another follows. */
  function EncodeOther(s: seq<nat>): seq<bool> {
    if s == [] then [] else ToBits(Num(|s| > 1), 1) + (ToBits(s[0], 8) + EncodeOther(s[1..]))
  }

  /** A number of up to three bytes after their count. */
  function EncodeValue(s: seq<nat>): seq<bool> { ToBits(|s|, 2) + EncodeAll(s, 8) }

  function OtherBits(m: MuxSyntax): seq<bool> {
    if m.sized.Some? && m.other != [] then EncodeValue(m.other) else EncodeOther(m.other)
  }

  function EncodeTail(m: MuxSyntax): seq<bool> {
    ToBits(Num(m.other != []), 1) + (OtherBits(m) + EncodeFlagged(m.crc, 8))
  }

  function EncodeVersion(m: MuxSyntax): seq<bool> {
    match m.sized case None => ToBits(0, 1) case Some(z) => ToBits(1, 1) + (ToBits(0, 1) + EncodeValue(z.tara))
  }

  function EncodeCounts(m: MuxSyntax): seq<bool> {
    EncodeVersion(m) + (ToBits(Num(m.sameTime), 1) + (ToBits(m.more, 6) + (ToBits(0, 4) + ToBits(0, 3))))
  }

  function ExtensionBits(z: Sized): seq<bool> {
    match z.extension case None => [] case Some(e) => EncodeExtension(e)
  }

  function SizeBits(m: MuxSyntax): seq<bool> { match m.sized case None => [] case Some(z) => EncodeValue(z.size) }

  /** Where the AudioSpecificConfig of a StreamMuxConfig at `p` begins. */
  function AscPosition(m: MuxSyntax, p: nat): nat { p + |EncodeCounts(m)| + |SizeBits(m)| }

  /** The bits that are kept for the decoder: the configuration and its extension. */
  function SpecificBits(m: MuxSyntax, p: nat): seq<bool> {
    EncodeAsc(m.asc, p) + match m.sized case None => [] case Some(z) => ExtensionBits(z)
  }

  function FillBits(m: MuxSyntax): seq<bool> { match m.sized case None => [] case Some(z) => z.fill }

  /** The configuration of the one stream, its AudioSpecificConfig at `p`. */
  function EncodeLayer(m: MuxSyntax, p: nat): seq<bool> { SizeBits(m) + (SpecificBits(m, p) + FillBits(m)) }

  function EncodeMux(m: MuxSyntax, p: nat): seq<bool> {
    EncodeCounts(m) + (EncodeLayer(m, AscPosition(m, p))
      + (EncodeLength(m.length, HasOffset(m.sameTime, m.asc.objectType)) + EncodeTail(m)))
  }

  function KindOf(l: Length): nat {
    match l case Variable(_, _) => 0 case Fixed(_) => 1 case Celp(k, _) => k case Hvxc(k, _) => k
  }

  /** The number that bytes form after `v`. */
  function Number(s: seq<nat>, v: nat): nat { if s == [] then v else Number(s[1..], v * 256 + s[0]) }

  predicate ExtensionValid(m: MuxSyntax) {
    m.sized.Some? && m.sized.value.extension.Some? ==> ValidExtension(m.sized.value.extension.value)
  }

  /** The configuration of the one stream, as extended. */
  function ConfigIn(m: MuxSyntax): Config
    requires ValidAsc(m.asc) && ExtensionValid(m)
  {
    if m.sized.Some? && m.sized.value.extension.Some? then Extended(ConfigOf(m.asc), m.sized.value.extension.value)
    else ConfigOf(m.asc)
  }

  function StreamOf(m: MuxSyntax, p: nat): Stream
    requires ValidMux(m, p)
  {
    Stream(ConfigIn(m), Packed(SpecificBits(m, AscPosition(m, p))), KindOf(m.length),
           if m.length.Fixed? then m.length.length else 0)
  }

  /** What a StreamMuxConfig at `p` describes. */
  function MuxOf(m: MuxSyntax, p: nat): Mux
    requires ValidMux(m, p)
  {
    Mux(m.sameTime, 1 + m.more, 1, 1, 1, StreamOf(m, p), Number(m.other, 0), if m.crc.Some? then m.crc.value else -1)
  }

  lemma LengthBack(data: seq<Byte>, p: nat, l: Length, sameTime: bool, s: Stream)
    requires Here(data, p, EncodeLength(l, HasOffset(sameTime, s.cfg.objectType))) && ValidLength(l)
    ensures LengthTypeAt(data, p, sameTime, s)
         == (s.(lengthType := KindOf(l), frameLength := if l.Fixed? then l.length else s.frameLength),
             p + |EncodeLength(l, HasOffset(sameTime, s.cfg.objectType))|)
  {
    hide V, Adv, ToBits, Power2, Here;
    Powers();
    match l {
      case Variable(f, o) =>
        var end := if HasOffset(sameTime, s.cfg.objectType) then ToBits(o, 6) else [];
        NextField(data, p, 0, 3, ToBits(f, 8) + end);
        NextField(data, p + 3, f, 8, end);
        if HasOffset(sameTime, s.cfg.objectType) { Field(data, p + 11, o, 6); }
      case Fixed(n) =>
        NextField(data, p, 1, 3, ToBits(n, 9));
        Field(data, p + 3, n, 9);
      case Celp(kind, index) =>
        NextField(data, p, kind, 3, ToBits(index, 6));
        Field(data, p + 3, index, 6);
      case Hvxc(kind, index) =>
        NextField(data, p, kind, 3, ToBits(index, 1));
        Field(data, p + 3, index, 1);
    }
  }

  lemma {:induction false} OtherBack(data: seq<Byte>, p: nat, s: seq<nat>, v: nat)
    requires s != [] && Here(data, p, EncodeOther(s)) && forall i | 0 <= i < |s| :: s[i] < 256
    ensures OtherFrom(data, p, v) == (Number(s, v), p + |EncodeOther(s)|)
    decreases |s|
  {
    hide V, Adv, ToBits, Power2, Here;
    Powers();
    var rest := EncodeOther(s[1..]);
    NextField(data, p, Num(|s| > 1), 1, ToBits(s[0], 8) + rest);
    NextField(data, p + 1, s[0], 8, rest);
    if |s| > 1 {
      OtherBack(data, p + 9, s[1..], v * 256 + s[0]);
    } else {
      assert rest == [];
    }
  }

  lemma {:induction false} BytesBack(data: seq<Byte>, p: nat, s: seq<nat>, v: nat)
    requires data != [] && Here(data, p, EncodeAll(s, 8)) && ValidBytes(s)
    ensures BytesFrom(data, p, |s|, v) == (Number(s, v), p + |EncodeAll(s, 8)|)
    decreases |s|
  {
    hide V, Adv, ToBits, Power2, Here;
    Powers();
    if s != [] {
      NextField(data, p, s[0], 8, EncodeAll(s[1..], 8));
      BytesBack(data, p + 8, s[1..], v * 256 + s[0]);
    }
  }

  lemma ValueBack(data: seq<Byte>, p: nat, s: seq<nat>)
    requires Here(data, p, EncodeValue(s)) && ValidBytes(s) && |s| <= 3
    ensures ValueAt(data, p) == (Number(s, 0), p + |EncodeValue(s)|)
  {
    hide V, Adv, ToBits, Power2, Here, BytesFrom, Number, EncodeAll;
    Powers();
    HereData(data, p, EncodeValue(s));
    NextField(data, p, |s|, 2, EncodeAll(s, 8));
    BytesBack(data, p + 2, s, 0);
  }

  lemma CrcBack(data: seq<Byte>, p: nat, crc: Option<nat>)
    requires Here(data, p, EncodeFlagged(crc, 8)) && (crc.Some? ==> crc.value < 256)
    ensures V(data, p, 1) == (if crc.Some? then 1 else 0) && Adv(data, p, 1) == p + 1
    ensures crc.Some? ==> V(data, p + 1, 8) == crc.value && Adv(data, p + 1, 8) == p + |EncodeFlagged(crc, 8)|
    ensures crc.None? ==> |EncodeFlagged(crc, 8)| == 1
  {
    hide V, Adv, ToBits, Power2, Here;
    Powers();
    match crc {
      case None => Field(data, p, 0, 1);
      case Some(v) =>
        NextField(data, p, 1, 1, ToBits(v, 8));
        Field(data, p + 1, v, 8);
    }
  }

  lemma TailBack(data: seq<Byte>, p: nat, m: MuxSyntax, mux: Mux)
    requires Here(data, p, EncodeTail(m)) && mux.otherData == 0 && ValidBytes(m.other)
    requires (m.crc.Some? ==> m.crc.value < 256) && (m.sized.Some? ==> |m.other| <= 3)
    ensures TailAt(data, p, Num(m.sized.Some?), mux)
         == (mux.(otherData := Number(m.other, 0), crc := if m.crc.Some? then m.crc.value else -1), p + |EncodeTail(m)|)
  {
    hide V, Adv, ToBits, Power2, Here, EncodeOther, EncodeValue, OtherFrom, ValueAt, Number, EncodeFlagged;
    Powers();
    var other, crc := OtherBits(m), EncodeFlagged(m.crc, 8);
    NextField(data, p, Num(m.other != []), 1, other + crc);
    Split(data, p + 1, other, crc);
    if m.other == [] {
      NoOther();
    } else if m.sized.Some? {
      ValueBack(data, p + 1, m.other);
    } else {
      OtherBack(data, p + 1, m.other, 0);
    }
    CrcBack(data, p + 1 + |other|, m.crc);
  }

  lemma NoOther()
    ensures EncodeOther([]) == [] && Number([], 0) == 0
  {}

  /** The version and the end of what belongs to it. */
  lemma VersionBack(data: seq<Byte>, p: nat, m: MuxSyntax)
    requires Here(data, p, EncodeVersion(m))
    requires m.sized.Some? ==> |m.sized.value.tara| <= 3 && ValidBytes(m.sized.value.tara)
    ensures V(data, p, 1) == Num(m.sized.Some?) && Adv(data, p, 1) == p + 1
    ensures m.sized.None? ==> |EncodeVersion(m)| == 1
    ensures m.sized.Some? ==> V(data, p + 1, 1) == 0 && Adv(data, p + 1, 1) == p + 2
    ensures m.sized.Some? ==> ValueAt(data, p + 2).1 == p + |EncodeVersion(m)|
  {
    hide V, Adv, ToBits, Power2, Here, EncodeValue, ValueAt;
    Powers();
    match m.sized {
      case None => Field(data, p, 0, 1);
      case Some(z) =>
        NextField(data, p, 1, 1, ToBits(0, 1) + EncodeValue(z.tara));
        NextField(data, p + 1, 0, 1, EncodeValue(z.tara));
        ValueBack(data, p + 2, z.tara);
    }
  }

  lemma CountsBack(data: seq<Byte>, p: nat, m: MuxSyntax, was: Mux)
    requires Here(data, p, EncodeCounts(m)) && m.more < 64
    requires m.sized.Some? ==> |m.sized.value.tara| <= 3 && ValidBytes(m.sized.value.tara)
    ensures CountsAt(data, p, was)
         == Counted(Num(m.sized.Some?), true,
                    NO_MUX.(sameTime := m.sameTime, subFrames := 1 + m.more, programs := 1, layers := 1),
                    p + |EncodeCounts(m)|)
  {
    hide V, Adv, ToBits, Power2, Here, EncodeVersion, ValueAt;
    Powers();
    Split(data, p, EncodeVersion(m), ToBits(Num(m.sameTime), 1) + (ToBits(m.more, 6) + (ToBits(0, 4) + ToBits(0, 3))));
    VersionBack(data, p, m);
    var q := p + |EncodeVersion(m)|;
    NextField(data, q, Num(m.sameTime), 1, ToBits(m.more, 6) + (ToBits(0, 4) + ToBits(0, 3)));
    NextField(data, q + 1, m.more, 6, ToBits(0, 4) + ToBits(0, 3));
    NextField(data, q + 7, 0, 4, ToBits(0, 3));
    Field(data, q + 11, 0, 3);
  }

  /** A configuration with its extension, in an announced size. */
  lemma SizedBack(data: seq<Byte>, p: nat, a: Asc, z: Sized)
    requires Here(data, p, EncodeAsc(a, p) + ExtensionBits(z)) && ValidAsc(a) && ValidSized(z, a, p)
    ensures SpecificAt(data, p, Number(z.size, 0))
         == (if z.extension.Some? then Extended(ConfigOf(a), z.extension.value) else ConfigOf(a),
             p + |EncodeAsc(a, p)| + |ExtensionBits(z)|)
    ensures !SpecificLong(data, p)
  {
    hide Here, EncodeAsc, ValidAsc, SpecificAt, SpecificLong, ConfigOf, ExtensionAt, EncodeExtension, Number, Extended;
    var n, size := |EncodeAsc(a, p)|, Number(z.size, 0);
    Split(data, p, EncodeAsc(a, p), ExtensionBits(z));
    AscBack(data, p, a);
    AscLength(a, p);
    SizedIs(data, p, a, size);
    SbrKept(a);
    match z.extension {
      case None => SizedEnd(data, p, a, size);
      case Some(e) =>
        ExtensionLength(e);
        ExtensionBack(data, p + n, e, size, p, ConfigOf(a));
    }
  }

  lemma ExtensionLength(e: Extension)
    ensures |EncodeExtension(e)| <= 100
  {
    hide ToBits;
  }

  /** The layer of an encoded StreamMuxConfig. */
  lemma LayerBack(data: seq<Byte>, p: nat, m: MuxSyntax, mux: Mux, start: nat)
    requires ValidMux(m, start) && p + |SizeBits(m)| == AscPosition(m, start) && mux.sameTime == m.sameTime
    requires Here(data, p, EncodeLayer(m, AscPosition(m, start))
                           + EncodeLength(m.length, HasOffset(m.sameTime, m.asc.objectType)))
    ensures LayerAt(data, p, Num(m.sized.Some?), mux)
         == (mux.(stream := StreamOf(m, start), streams := 1),
             p + |EncodeLayer(m, AscPosition(m, start))|
                 + |EncodeLength(m.length, HasOffset(m.sameTime, m.asc.objectType))|)
    ensures !LayerLong(data, p, Num(m.sized.Some?))
  {
    hide V, Adv, Here, EncodeAsc, EncodeLength, SpecificAt, SpecificLong, LengthTypeAt, ConfigOf, Packed, ValidAsc;
    hide ValidLength, Number, ValueAt, EncodeValue, ExtensionBits, EncodeCounts, Extended;
    var q := AscPosition(m, start);
    var length := EncodeLength(m.length, HasOffset(m.sameTime, m.asc.objectType));
    var a, b, c := SizeBits(m), SpecificBits(m, q), FillBits(m);
    Split(data, p, a + (b + c), length);
    Split(data, p, a, b + c);
    Split(data, q, b, c);
    HereBits(data, q, b);
    TypeKept(m);
    AdvIs(data, q + |b|, |c|, length);
    match m.sized {
      case None =>
        assert b == EncodeAsc(m.asc, q);
        AscBack(data, q, m.asc);
      case Some(z) =>
        ValueBack(data, p, z.size);
        SizedBack(data, q, m.asc, z);
    }
    LengthBack(data, q + |b| + |c|, m.length, m.sameTime, Stream(ConfigIn(m), Packed(b), 0, 0));
  }

  lemma AdvIs(data: seq<Byte>, p: nat, n: nat, s: seq<bool>)
    requires Here(data, p + n, s)
    ensures Adv(data, p, n) == p + n
  {}

  /** Reading an encoded StreamMuxConfig gives it back, supported, and ends where it ends. */
  lemma MuxBack(data: seq<Byte>, p: nat, m: MuxSyntax, was: Mux)
    requires Here(data, p, EncodeMux(m, p)) && ValidMux(m, p)
    ensures MuxAt(data, p, was) == (true, MuxOf(m, p), p + |EncodeMux(m, p)|) && !MayBeWide(data, p, was)
  {
    hide V, Adv, Here, EncodeCounts, EncodeLayer, EncodeLength, EncodeTail, CountsAt, LayerAt, LayerLong, SizeBits;
    hide TailAt, StreamOf, ValidAsc, ValidLength, Number;
    var a, b := EncodeCounts(m), EncodeLayer(m, AscPosition(m, p));
    var c, d := EncodeLength(m.length, HasOffset(m.sameTime, m.asc.objectType)), EncodeTail(m);
    assert EncodeMux(m, p) == a + (b + (c + d)) == a + ((b + c) + d);
    Split(data, p, a, (b + c) + d);
    CountsBack(data, p, m, was);
    Split(data, p + |a|, b + c, d);
    var mux := NO_MUX.(sameTime := m.sameTime, subFrames := 1 + m.more, programs := 1, layers := 1);
    LayerBack(data, p + |a|, m, mux, p);
    TailBack(data, p + |a| + |b + c|, m, mux.(stream := StreamOf(m, p), streams := 1));
  }

  lemma TypeKept(m: MuxSyntax)
    requires ValidAsc(m.asc) && ExtensionValid(m)
    ensures ConfigIn(m).objectType == m.asc.objectType && ConfigIn(m).samplerate == RateOf(m.asc.rate)
  {}

  lemma HereBits(data: seq<Byte>, p: nat, s: seq<bool>)
    requires Here(data, p, s)
    ensures Bits(data, p, |s|) == s
  {}

  /* ---------- Frames ---------- */

  function EncodeEscape(n: nat): seq<bool> { if n < 255 then ToBits(n, 8) else ToBits(255, 8) + EncodeEscape(n - 255) }

  function Flat(s: seq<Byte>): seq<bool> { if s == [] then [] else s[0] + Flat(s[1..]) }

  /** What a subframe may carry: any bytes, as many as the configuration says, or none. */
  predicate ValidPayload(l: Length, s: seq<Byte>) {
    match l case Variable(_, _) => true case Fixed(n) => |s| == n / 8 case _ => s == []
  }

  predicate ValidPayloads(l: Length, ps: seq<seq<Byte>>) { forall i | 0 <= i < |ps| :: ValidPayload(l, ps[i]) }

  /** The announcement of a subframe of `n` bytes; two bits of an index for some types. */
  function EncodeAnnounced(l: Length, n: nat): seq<bool> {
    if l.Variable? then EncodeEscape(n) else if KindOf(l) in {3, 5, 7} then ToBits(0, 2) else []
  }

  /** One subframe: its announcement and its bytes. */
  function EncodeSubFrame(l: Length, s: seq<Byte>): seq<bool> { EncodeAnnounced(l, |s|) + Flat(s) }

  function EncodeSubFrames(l: Length, ps: seq<seq<Byte>>): seq<bool> {
    if ps == [] then [] else EncodeSubFrame(l, ps[0]) + EncodeSubFrames(l, ps[1..])
  }

  function Joined(ps: seq<seq<Byte>>): seq<Byte> { if ps == [] then [] else ps[0] + Joined(ps[1..]) }

  lemma {:induction false} EscapeBack(data: seq<Byte>, p: nat, n: nat)
    requires Here(data, p, EncodeEscape(n))
    ensures EscapeLength(data, p) == (n, p + |EncodeEscape(n)|)
    decreases n
  {
    hide V, Adv, ToBits, Power2, Here;
    Powers();
    if n < 255 {
      Field(data, p, n, 8);
    } else {
      NextField(data, p, 255, 8, EncodeEscape(n - 255));
      EscapeBack(data, p + 8, n - 255);
    }
  }

  lemma {:induction false} FlatBack(data: seq<Byte>, p: nat, s: seq<Byte>)
    requires Here(data, p, Flat(s))
    ensures |Flat(s)| == 8 * |s| && Payload(data, p, |s|) == s
    decreases |s|
  {
    if s != [] {
      Split(data, p, s[0], Flat(s[1..]));
      FlatBack(data, p + 8, s[1..]);
      HereBits(data, p, s[0]);
      PayloadFront(data, p, |s|);
    }
  }

  lemma PayloadFront(data: seq<Byte>, p: nat, n: nat)
    requires n > 0
    ensures Payload(data, p, n) == [Bits(data, p, 8)] + Payload(data, p + 8, n - 1)
  {
    hide Bits;
    var a, b := Payload(data, p, n), [Bits(data, p, 8)] + Payload(data, p + 8, n - 1);
    forall i | 0 <= i < n
      ensures a[i] == b[i]
    {
      if i > 0 { assert p + 8 + 8 * (i - 1) == p + 8 * i; }
    }
  }

  /** The announcement gives the length back. */
  lemma AnnouncedBack(data: seq<Byte>, p: nat, m: Mux, l: Length, s: seq<Byte>)
    requires Here(data, p, EncodeAnnounced(l, |s|)) && ValidLength(l) && ValidPayload(l, s)
    requires m.layers == 1 && m.stream.lengthType == KindOf(l) && (l.Fixed? ==> m.stream.frameLength == l.length)
    ensures FirstLength(data, p, m) == |s|
    ensures LengthsEnd(data, p, m.stream, m.layers) == p + |EncodeAnnounced(l, |s|)|
  {
    hide V, ToBits, EscapeLength, EncodeEscape, Here;
    HereData(data, p, EncodeAnnounced(l, |s|));
    if l.Variable? { EscapeBack(data, p, |s|); }
    var q := LengthOf(data, p, m.stream).1;
    assert LengthsEnd(data, q, m.stream, 0) == q;
  }

  /** The payloads of encoded subframes come out joined. */
  lemma {:induction false} SubFramesBack(data: seq<Byte>, p: nat, m: Mux, l: Length, ps: seq<seq<Byte>>)
    requires Here(data, p, EncodeSubFrames(l, ps)) && ValidLength(l) && ValidPayloads(l, ps)
    requires m.layers == 1 && m.stream.lengthType == KindOf(l) && (l.Fixed? ==> m.stream.frameLength == l.length)
    ensures AllPayload(data, p, m, |ps|) == if m.sameTime then Joined(ps) else []
    decreases |ps|
  {
    hide V, Here, EncodeAnnounced, Flat, Payload, FirstLength, LengthsEnd, ValidPayload, ValidLength;
    if ps != [] && m.sameTime {
      var s, e, f := ps[0], EncodeAnnounced(l, |ps[0]|), Flat(ps[0]);
      HereData(data, p, EncodeSubFrames(l, ps));
      Split(data, p, e + f, EncodeSubFrames(l, ps[1..]));
      Split(data, p, e, f);
      AnnouncedBack(data, p, m, l, s);
      FlatBack(data, p + |e|, s);
      SubFramesBack(data, p + |e| + |f|, m, l, ps[1..]);
      UnrollPayload(data, p, m, |ps|);
    } else {
      NoPayload(data, m);
    }
  }

  /** The joined payloads fit where their encoding fits. */
  lemma {:induction false} JoinedFits(l: Length, ps: seq<seq<Byte>>)
    ensures 8 * |Joined(ps)| <= |EncodeSubFrames(l, ps)|
  {
    hide EncodeAnnounced, Flat;
    if ps != [] {
      JoinedFits(l, ps[1..]);
      FlatLength(ps[0]);
    }
  }

  lemma {:induction false} FlatLength(s: seq<Byte>)
    ensures |Flat(s)| == 8 * |s|
  {
    if s != [] { FlatLength(s[1..]); }
  }

  /** A frame with its own configuration, or one that repeats the last. */
  function EncodeFrame(m: MuxSyntax, same: bool, ps: seq<seq<Byte>>): seq<bool> {
    if same then ToBits(1, 1) + EncodeSubFrames(m.length, ps)
    else ToBits(0, 1) + (EncodeMux(m, 1) + EncodeSubFrames(m.length, ps))
  }

  lemma FrameBack(data: seq<Byte>, m: MuxSyntax, same: bool, ps: seq<seq<Byte>>, was: Mux) returns (start: nat)
    requires ValidMux(m, 1) && Here(data, 0, EncodeFrame(m, same, ps)) && ValidPayloads(m.length, ps)
    ensures V(data, 0, 1) == Num(same) && Adv(data, 0, 1) == 1
    ensures if same then start == 1 else MuxAt(data, 1, was) == (true, MuxOf(m, 1), start) && !MayBeWide(data, 1, was)
    ensures AllPayload(data, start, MuxOf(m, 1), |ps|) == if m.sameTime then Joined(ps) else []
  {
    hide V, Adv, ToBits, Here, AllPayload, MuxAt, MayBeWide, EncodeMux, EncodeSubFrames, ValidPayloads, Joined;
    Powers();
    MuxKept(m, 1);
    hide ValidMux, MuxOf;
    if same {
      NextField(data, 0, 1, 1, EncodeSubFrames(m.length, ps));
      start := 1;
    } else {
      NextField(data, 0, 0, 1, EncodeMux(m, 1) + EncodeSubFrames(m.length, ps));
      Split(data, 1, EncodeMux(m, 1), EncodeSubFrames(m.length, ps));
      MuxBack(data, 1, m, was);
      start := 1 + |EncodeMux(m, 1)|;
    }
    SubFramesBack(data, start, MuxOf(m, 1), m.length, ps);
  }

  lemma MuxKept(m: MuxSyntax, p: nat)
    requires ValidMux(m, p)
    ensures var mux := MuxOf(m, p);
            && ValidLength(m.length) && mux.layers == 1 && mux.sameTime == m.sameTime && mux.subFrames == 1 + m.more
            && mux.stream.lengthType == KindOf(m.length) && mux.stream.cfg == ConfigIn(m)
            && (m.length.Fixed? ==> mux.stream.frameLength == m.length.length)
            && ConfigIn(m).samplerate == RateOf(m.asc.rate)
  {
    hide EncodeCounts, SizeBits, ValidLength, RateOf, Packed;
    TypeKept(m);
  }

  /**
    Whatever valid configuration and payloads are encoded at the start of a
    buffer, `LOASParse` configures itself as described, or keeps the same
    configuration, and leaves the payloads, joined, at the start of the buffer.
   */
  method ParseEncoded(parser: Parser, buffer: array<Byte>, ghost m: MuxSyntax, ghost same: bool,
      ghost ps: seq<seq<Byte>>)
    returns (size: nat)
    requires ValidMux(m, 1) && |ps| == 1 + m.more && ValidPayloads(m.length, ps)
    requires if same then parser.configured && parser.mux == MuxOf(m, 1) else Usable(ConfigIn(m))
    requires Here(buffer[..], 0, EncodeFrame(m, same, ps)) && |EncodeFrame(m, same, ps)| <= 8 * buffer.Length
    modifies parser, buffer
    ensures parser.configured && parser.mux == MuxOf(m, 1)
    ensures !same ==> parser.rate == RateOf(m.asc.rate) && parser.channels == ConfigIn(m).channel
    ensures !same ==> parser.frameLength == ConfigIn(m).frameLength
    ensures size == (if m.sameTime then |Joined(ps)| else 0) <= buffer.Length
    ensures buffer[..] == (if m.sameTime then Joined(ps) else []) + old(buffer[size..])
  {
    hide V, Adv, AllPayload, MuxAt, MayBeWide, EncodeMux, EncodeSubFrames, ConfigIn, Here, Joined, ValidMux, MuxOf;
    hide ValidPayloads;
    ghost var data := buffer[..];
    MuxKept(m, 1);
    ghost var at := FrameBack(data, m, same, ps, parser.mux);
    JoinedFits(m.length, ps);
    FrameLength(m, same, ps);
    ghost var start;
    var o;
    o, start := parser.LoasParse(buffer);
    size := o.size;
  }

  lemma FrameLength(m: MuxSyntax, same: bool, ps: seq<seq<Byte>>)
    ensures |EncodeFrame(m, same, ps)| > |EncodeSubFrames(m.length, ps)|
  {
    hide ToBits, EncodeMux, EncodeSubFrames;
  }
}
