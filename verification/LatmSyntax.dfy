/**
  The LATM syntax that libfaad/decoder.c accepts, read from the plain bit
  stream: what stands at a position, and where it ends.
 */
module LatmSyntax {
  import opened BitWords

  const SAMPLE_RATES: seq<nat> :=
    [96000, 88200, 64000, 48000, 44100, 32000, 24000, 22050, 16000, 12000, 11025, 8000, 7350, 0, 0, 0]

  const MAX_EXTRA_SIZE := 64

  /** `mpeg4_cfg_t`. */
  datatype Config = Config(objectType: nat, samplerate: nat, channel: int, sbr: int, ps: int,
                           extType: nat, extRate: nat, frameLength: nat)

  /** `latm_stream_t`, as far as it is used. */
  datatype Stream = Stream(cfg: Config, extra: seq<Byte>, lengthType: nat, frameLength: nat)

  const NO_CONFIG := Config(0, 0, 0, 0, 0, 0, 0, 0)
  const NO_STREAM := Stream(NO_CONFIG, [], 0, 0)

  /** `latm_mux_t`: only program zero ever has layers, and only stream zero is ever filled in. */
  datatype Mux = Mux(sameTime: bool, subFrames: nat, programs: nat, layers: nat, streams: nat, stream: Stream,
                     otherData: nat, crc: int)

  const NO_MUX := Mux(false, 0, 0, 0, 0, NO_STREAM, 0, 0)

  /** The number in the `n` bits from `p` on. */
  function V(data: seq<Byte>, p: nat, n: nat): nat { Value(Bits(data, p, n)) }

  /** Where the reader stands after `n` bits; without a buffer it never moves. */
  function Adv(data: seq<Byte>, p: nat, n: nat): nat { if data == [] then p else p + n }

  /** Bits left in the buffer, for what ends because reads past the end give zeros. */
  function Remaining(data: seq<Byte>, p: int): nat { if p < 8 * |data| then 8 * |data| - p else 0 }

  lemma InsideBuffer(data: seq<Byte>, p: nat, n: nat)
    requires V(data, p, n) != 0
    ensures p < 8 * |data|
  {
    ValueZeros(n, []);
    assert Zeros(n) + [] == Zeros(n);
    if p >= 8 * |data| { BitsPast(data, p, n); }
  }

  /* ---------- AudioSpecificConfig ---------- */

  function TypeAt(data: seq<Byte>, p: nat): (r: (nat, nat))
    ensures r.1 >= p
  {
    var t, q := V(data, p, 5), Adv(data, p, 5);
    if t == 31 then (32 + V(data, q, 6), Adv(data, q, 6)) else (t, q)
  }

  function RateAt(data: seq<Byte>, p: nat): (r: (nat, nat))
    ensures r.1 >= p
  {
    var i, q := V(data, p, 4), Adv(data, p, 4);
    if i < 15 then (SAMPLE_RATES[i], q) else (V(data, q, 24), Adv(data, q, 24))
  }

  /** The end of `n` bits that are there when a flag is set. */
  function FlagEnd(data: seq<Byte>, p: nat, n: nat): (q: nat)
    ensures q >= p
  {
    var q := Adv(data, p, 1);
    if V(data, p, 1) != 0 then Adv(data, q, n) else q
  }

  /** `n` elements of four bits, each after a flag when `flagged`: how many flags are set. */
  function ElementsAt(data: seq<Byte>, p: nat, n: nat, flagged: bool): (r: (nat, nat))
    ensures r.1 >= p
    decreases n
  {
    if n == 0 then (0, p)
    else
      var q := if flagged then Adv(data, p, 1) else p;
      var rest := ElementsAt(data, Adv(data, q, 4), n - 1, flagged);
      ((if flagged && V(data, p, 1) == 1 then 1 else 0) + rest.0, rest.1)
  }

  /** Bits up to the next byte boundary. */
  function Padding(p: nat): nat { (8 - p % 8) % 8 }

  function Aligned(p: nat): (q: nat)
    ensures q >= p
  {
    p + Padding(p)
  }

  /** How many elements of each kind a program has. */
  datatype Counts = Counts(front: nat, side: nat, back: nat, lfe: nat, assoc: nat, cc: nat)

  function CountsOf(data: seq<Byte>, p: nat): (r: (Counts, nat))
    ensures r.1 >= p
  {
    var b := Adv(data, p, 4);
    var c := Adv(data, b, 4);
    var d := Adv(data, c, 4);
    var e := Adv(data, d, 2);
    var f := Adv(data, e, 3);
    (Counts(V(data, p, 4), V(data, b, 4), V(data, c, 4), V(data, d, 2), V(data, e, 3), V(data, f, 4)), Adv(data, f, 4))
  }

  function DownmixEnd(data: seq<Byte>, p: nat): (q: nat)
    ensures q >= p
  {
    FlagEnd(data, FlagEnd(data, FlagEnd(data, p, 4), 4), 3)
  }

  /** The channels in the lists of elements. */
  function ListsAt(data: seq<Byte>, p: nat, n: Counts): (r: (int, nat))
    ensures r.1 >= p
  {
    var front := ElementsAt(data, p, n.front, true);
    var side := ElementsAt(data, front.1, n.side, true);
    var back := ElementsAt(data, side.1, n.back, true);
    var lfe := ElementsAt(data, back.1, n.lfe, false);
    var assoc := ElementsAt(data, lfe.1, n.assoc, false);
    var cc := ElementsAt(data, assoc.1, n.cc, true);
    (n.front + front.0 + n.side + side.0 + n.back + back.0 + n.lfe, cc.1)
  }

  function CommentEnd(data: seq<Byte>, p: nat): (q: nat)
    ensures q >= p
  {
    Adv(data, Adv(data, p, 8), V(data, p, 8) * 8)
  }

  /** The channels of a program configuration, and where its element lists end. */
  function ElementListsAt(data: seq<Byte>, p: nat): (r: (int, nat))
    ensures r.1 >= p
  {
    var n := CountsOf(data, Adv(data, p, 6));
    ListsAt(data, DownmixEnd(data, n.1), n.0)
  }

  /** The channels a program configuration adds up to, one or two for each element. */
  function ProgramAt(data: seq<Byte>, p: nat, channel: int): (r: (int, nat))
    ensures r.1 >= p
  {
    var all := ElementListsAt(data, p);
    (channel + all.0, CommentEnd(data, Aligned(all.1)))
  }

  /** The comment of a program configuration has more than four bytes. */
  predicate LongComment(data: seq<Byte>, p: nat) { V(data, Aligned(ElementListsAt(data, p).1), 8) > 4 }

  /** What a set extension flag adds. */
  function ExtensionWidth(objectType: nat): nat {
    (if objectType == 22 then 16 else 0) + (if objectType in {17, 19, 20, 23} then 3 else 0) + 1
  }

  function GaEnd(data: seq<Byte>, p: nat, objectType: nat, extension: bool): (q: nat)
    ensures q >= p
  {
    var layer := if objectType in {6, 20} then Adv(data, p, 3) else p;
    if extension then Adv(data, layer, ExtensionWidth(objectType)) else layer
  }

  function GaAt(data: seq<Byte>, p: nat, c: Config): (r: (Config, nat))
    ensures r.1 >= p
  {
    var q := FlagEnd(data, Adv(data, p, 1), 14);
    var channels := if c.channel == 0 then ProgramAt(data, Adv(data, q, 1), 0) else (c.channel, Adv(data, q, 1));
    (c.(frameLength := if V(data, p, 1) != 0 then 960 else 1024, channel := channels.0),
     GaEnd(data, channels.1, c.objectType, V(data, q, 1) != 0))
  }

  /** A program configuration with a long comment. */
  predicate GaLong(data: seq<Byte>, p: nat, c: Config) {
    c.channel == 0 && LongComment(data, Adv(data, FlagEnd(data, Adv(data, p, 1), 14), 1))
  }

  predicate IsGA(t: nat) { t in {1, 2, 3, 4, 6, 7, 17, 19, 20, 21, 22, 23} }

  predicate HasEpConfig(t: nat) { t in {17, 19, 20, 21, 22, 23, 24, 25, 26, 27} }

  function EpEnd(data: seq<Byte>, p: nat): (q: nat)
    ensures q >= p
  {
    if V(data, p, 2) == 3 then Adv(data, Adv(data, p, 2), 1) else Adv(data, p, 2)
  }

  /**
    What is left of the announced size after `used` bits. The reader's
    position is unsigned, so a size that is already exceeded wraps round to a
    large number.
   */
  function Room(maxSize: int, used: nat): nat { (maxSize - used) % 0x1_0000_0000 }

  /** The backward-compatible PS extension. */
  function PsAt(data: seq<Byte>, p: nat, room: nat, c: Config): (r: (Config, nat))
    ensures r.1 >= p
  {
    var q := Adv(data, p, 11);
    if room < 12 then (c, p)
    else if V(data, p, 11) != 0x548 then (c, q)
    else (c.(ps := V(data, q, 1)), Adv(data, q, 1))
  }

  /** The backward-compatible SBR and PS extension, looked for when enough bits seem to remain. */
  function ExtensionAt(data: seq<Byte>, p: nat, maxSize: int, start: nat, c: Config): (r: (Config, nat))
    requires p >= start
    ensures r.1 >= p
  {
    if c.extType == 5 || maxSize <= 0 || Room(maxSize, p - start) < 16 then (c, p)
    else
      var q := Adv(data, p, 11);
      if V(data, p, 11) != 0x2b7 then (c, q)
      else
        var t := TypeAt(data, q);
        if t.0 != 5 then (c.(extType := t.0), t.1)
        else
          var sbr, f := V(data, t.1, 1), Adv(data, t.1, 1);
          if sbr != 1 then (c.(extType := 5, sbr := sbr), f)
          else
            var rate := RateAt(data, f);
            PsAt(data, rate.1, Room(maxSize, rate.1 - start), c.(extType := 5, sbr := 1, extRate := rate.0))
  }

  /** The channel number of a channel configuration. */
  function Channels(code: nat): int { if code == 7 then 8 else if code >= 8 then -1 else code }

  /** Object type and rates, with explicit SBR and PS signalling. */
  function HeadAt(data: seq<Byte>, p: nat): (r: (Config, nat))
    ensures r.1 >= p
  {
    var t := TypeAt(data, p);
    var rate := RateAt(data, t.1);
    var q := Adv(data, rate.1, 4);
    var c := Config(t.0, rate.0, Channels(V(data, rate.1, 4)), -1, -1, 0, 0, 0);
    if t.0 == 5 || t.0 == 29 then
      var ext := RateAt(data, q);
      var base := TypeAt(data, ext.1);
      (c.(sbr := 1, ps := if t.0 == 29 then 1 else -1, extType := 5, extRate := ext.0, objectType := base.0), base.1)
    else (c, q)
  }

  function SpecificAt(data: seq<Byte>, p: nat, maxSize: int): (r: (Config, nat))
    ensures r.1 >= p
  {
    var h := HeadAt(data, p);
    var g := if IsGA(h.0.objectType) then GaAt(data, h.1, h.0) else h;
    ExtensionAt(data, if HasEpConfig(g.0.objectType) then EpEnd(data, g.1) else g.1, maxSize, p, g.0)
  }

  predicate SpecificLong(data: seq<Byte>, p: nat) {
    var h := HeadAt(data, p);
    IsGA(h.0.objectType) && GaLong(data, h.1, h.0)
  }

  /* ---------- Bits consumed, as bytes ---------- */

  /** Byte `i` of a bit string, zero padded. */
  function PaddedByte(s: seq<bool>, i: nat): Byte
    requires 8 * i < |s|
  {
    if |s| - 8 * i < 8 then s[8 * i..] + Zeros(8 - (|s| - 8 * i)) else s[8 * i..8 * i + 8]
  }

  /** A bit string in bytes, up to the size cap. */
  function Packed(s: seq<bool>): (e: seq<Byte>) {
    var n := (|s| + 7) / 8;
    seq(if n < MAX_EXTRA_SIZE then n else MAX_EXTRA_SIZE, i requires 0 <= i < n => PaddedByte(s, i))
  }

  /** The bytes hold the bits in their order, padded with zeros, 64 of them at most. */
  lemma PackedIs(s: seq<bool>, i: nat, j: nat)
    ensures |Packed(s)| == (if |s| > 512 then 64 else (|s| + 7) / 8)
    ensures i < |Packed(s)| && j < 8 ==> Packed(s)[i][j] == (8 * i + j < |s| && s[8 * i + j])
  {}

  /* ---------- StreamMuxConfig ---------- */

  function BytesFrom(data: seq<Byte>, p: nat, n: nat, v: nat): (r: (nat, nat))
    ensures r.1 >= p
    decreases n
  {
    if n == 0 then (v, p) else BytesFrom(data, Adv(data, p, 8), n - 1, v * 256 + V(data, p, 8))
  }

  /** `LatmGetValue`: up to three bytes after a two-bit count. */
  function ValueAt(data: seq<Byte>, p: nat): (r: (nat, nat))
    ensures r.1 >= p
  {
    BytesFrom(data, Adv(data, p, 2), V(data, p, 2), 0)
  }

  /** Bytes that continue while a flag in front of each is set. */
  function OtherFrom(data: seq<Byte>, p: nat, v: nat): (r: (nat, nat))
    ensures r.1 >= p
    decreases Remaining(data, p)
  {
    var q := Adv(data, p, 1);
    var more := v * 256 + V(data, q, 8);
    if V(data, p, 1) == 0 then (more, Adv(data, q, 8))
    else
      InsideBuffer(data, p, 1);
      OtherFrom(data, Adv(data, q, 8), more)
  }

  function LengthTypeAt(data: seq<Byte>, p: nat, sameTime: bool, s: Stream): (r: (Stream, nat))
    ensures r.1 >= p
  {
    var kind, q := V(data, p, 3), Adv(data, p, 3);
    if kind == 0 then
      (s.(lengthType := 0),
       if !sameTime && s.cfg.objectType in {6, 20, 8, 24} then Adv(data, Adv(data, q, 8), 6) else Adv(data, q, 8))
    else if kind == 1 then (s.(lengthType := 1, frameLength := V(data, q, 9)), Adv(data, q, 9))
    else (s.(lengthType := kind), if kind in {3, 4, 5} then Adv(data, q, 6)
        else if kind in {6, 7} then Adv(data, q, 1) else q)
  }

  /** The configuration of the one stream, in its announced size when there is one. */
  function LayerAt(data: seq<Byte>, p: nat, version: nat, m: Mux): (r: (Mux, nat))
    ensures r.1 >= p
  {
    var size := if version == 1 then ValueAt(data, p) else (0, p);
    var c := SpecificAt(data, size.1, size.0);
    var bits: nat := c.1 - size.1;
    var q := if size.0 > bits then Adv(data, c.1, size.0 - bits) else c.1;
    var st := LengthTypeAt(data, q, m.sameTime, Stream(c.0, Packed(Bits(data, size.1, bits)), 0, 0));
    (m.(stream := st.0, streams := 1), st.1)
  }

  /** More than 32 bits at once: a comment of more than four bytes, or as much left of an announced size. */
  predicate LayerLong(data: seq<Byte>, p: nat, version: nat) {
    var size := if version == 1 then ValueAt(data, p) else (0, p);
    SpecificLong(data, size.1) || size.0 > SpecificAt(data, size.1, size.0).1 - size.1 + 32
  }

  /** Other data and CRC. */
  function TailAt(data: seq<Byte>, p: nat, version: nat, m: Mux): (r: (Mux, nat))
    ensures r.1 >= p
  {
    var o := Adv(data, p, 1);
    var other := if V(data, p, 1) == 0 then (m.otherData, o) else if version == 1 then ValueAt(data, o)
        else OtherFrom(data, o, 0);
    var q := Adv(data, other.1, 1);
    if V(data, other.1, 1) == 0 then (m.(otherData := other.0, crc := -1), q)
    else (m.(otherData := other.0, crc := V(data, q, 8)), Adv(data, q, 8))
  }

  /** Version, framing and counts; more than one program or layer is not supported. */
  datatype Counted = Counted(version: nat, supported: bool, mux: Mux, end: nat)

  function CountsAt(data: seq<Byte>, p: nat, was: Mux): (r: Counted)
    ensures r.end >= p
  {
    var version, a := V(data, p, 1), Adv(data, p, 1);
    var b := if version != 0 then Adv(data, a, 1) else a;
    if version != 0 && V(data, a, 1) != 0 then Counted(version, false, was, b)
    else
      var c := if version == 1 then ValueAt(data, b).1 else b;
      var d := Adv(data, c, 1);
      var e := Adv(data, d, 6);
      var f := Adv(data, e, 4);
      var m := NO_MUX.(sameTime := V(data, c, 1) != 0, subFrames := 1 + V(data, d, 6), programs := 1 + V(data, e, 4));
      if m.programs > 1 then Counted(version, false, m, f)
      else
        var layers := m.(layers := 1 + V(data, f, 3));
        Counted(version, layers.layers == 1, layers, Adv(data, f, 3))
  }

  /** `LatmReadStreamMuxConfiguration`: the configuration, whether it is supported, and its end. */
  function MuxAt(data: seq<Byte>, p: nat, was: Mux): (r: (bool, Mux, nat))
    ensures r.2 >= p
  {
    var c := CountsAt(data, p, was);
    if !c.supported then (false, c.mux, c.end)
    else
      var layer := LayerAt(data, c.end, c.version, c.mux);
      var tail := TailAt(data, layer.1, c.version, layer.0);
      (true, tail.0, tail.1)
  }

  /** Only then can the configuration need more bits at once than the reader has. */
  predicate MayBeWide(data: seq<Byte>, p: nat, was: Mux) {
    var c := CountsAt(data, p, was);
    c.supported && LayerLong(data, c.end, c.version)
  }

  /* ---------- What a frame carries ---------- */

  /** A payload length: bytes summed up to and including the first that is not 255. */
  function EscapeLength(data: seq<Byte>, p: nat): (r: (nat, nat))
    decreases Remaining(data, p)
  {
    var v := V(data, p, 8);
    if v != 255 then (v, Adv(data, p, 8))
    else
      InsideBuffer(data, p, 8);
      var rest := EscapeLength(data, p + 8);
      (255 + rest.0, rest.1)
  }

  /** The length one layer announces, and where its announcement ends. */
  function LengthOf(data: seq<Byte>, p: nat, st: Stream): (nat, nat) {
    if st.lengthType == 0 then EscapeLength(data, p)
    else if st.lengthType == 1 then (st.frameLength / 8, p)
    else if st.lengthType == 3 || st.lengthType == 5 || st.lengthType == 7 then (0, Adv(data, p, 2))
    else (0, p)
  }

  /** The end of the announcements of `k` layers. */
  function LengthsEnd(data: seq<Byte>, p: nat, st: Stream, k: nat): nat
    decreases k
  {
    if k == 0 then p else LengthsEnd(data, LengthOf(data, p, st).1, st, k - 1)
  }

  /** The length of layer zero. */
  function FirstLength(data: seq<Byte>, p: nat, m: Mux): nat {
    if m.layers == 0 then 0 else LengthOf(data, p, m.stream).0
  }

  function Payload(data: seq<Byte>, p: nat, n: nat): (s: seq<Byte>)
    ensures |s| == n
  {
    seq(n, i requires 0 <= i < n => Bits(data, p + 8 * i, 8))
  }

  /** The payload bytes of `k` subframes with same-time framing, one after the other. */
  function AllPayload(data: seq<Byte>, p: nat, m: Mux, k: nat): seq<Byte>
    decreases k
  {
    if k == 0 || !m.sameTime then []
    else
      var n, q := FirstLength(data, p, m), LengthsEnd(data, p, m.stream, m.layers);
      Payload(data, q, n) + AllPayload(data, Adv(data, q, 8 * n), m, k - 1)
  }
}
