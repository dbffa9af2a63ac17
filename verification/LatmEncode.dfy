/**
  An encoder for the AudioSpecificConfig (section 1.6 of ISO/IEC 14496-3), with
  its program configuration and its extension, and the proof that the parser
  of libfaad/decoder.c gives back what was encoded.
 */
module LatmEncode {
  import opened BitWords
  import opened BitReader
  import opened LatmSyntax
  import opened Latm

  datatype Option<T> = None | Some(value: T)

  /* ---------- Fields ---------- */

  /** The bit string `s` stands in the buffer at position `p`. */
  ghost predicate Here(data: seq<Byte>, p: nat, s: seq<bool>) { data != [] && Bits(data, p, |s|) == s }

  lemma Split(data: seq<Byte>, p: nat, a: seq<bool>, b: seq<bool>)
    requires Here(data, p, a + b)
    ensures Here(data, p, a) && Here(data, p + |a|, b)
  {
    BitsConcat(data, p, |a|, |b|);
    assert (a + b)[..|a|] == a && (a + b)[|a|..] == b;
  }

  lemma Powers()
    ensures Power2(1) == 2 && Power2(2) == 4 && Power2(3) == 8 && Power2(4) == 16 && Power2(5) == 32 && Power2(6) == 64
    ensures Power2(8) == 256 && Power2(9) == 512 && Power2(14) == 16384 && Power2(24) == 16777216
  {
    assert Power2(12) == 4096;
    assert Power2(18) == 262144;
  }

  /** A field gives back the number it was written with. */
  lemma Field(data: seq<Byte>, p: nat, v: nat, n: nat)
    requires Here(data, p, ToBits(v, n)) && v < Power2(n)
    ensures V(data, p, n) == v && Adv(data, p, n) == p + n
  {
    ValueOfBits(v, n);
  }

  /** A field and what follows it. */
  lemma NextField(data: seq<Byte>, p: nat, v: nat, n: nat, rest: seq<bool>)
    requires Here(data, p, ToBits(v, n) + rest) && v < Power2(n)
    ensures V(data, p, n) == v && Adv(data, p, n) == p + n && Here(data, p + n, rest)
  {
    Split(data, p, ToBits(v, n), rest);
    Field(data, p, v, n);
  }

  function Num(b: bool): nat { if b then 1 else 0 }

  /** A flag, and `n` more bits if it is set. */
  function EncodeFlagged(o: Option<nat>, n: nat): seq<bool> {
    match o case None => ToBits(0, 1) case Some(v) => ToBits(1, 1) + ToBits(v, n)
  }

  lemma FlaggedBack(data: seq<Byte>, p: nat, o: Option<nat>, n: nat)
    requires Here(data, p, EncodeFlagged(o, n)) && (o.Some? ==> o.value < Power2(n))
    ensures FlagEnd(data, p, n) == p + |EncodeFlagged(o, n)|
  {
    hide V, Adv, ToBits, Power2, Here;
    Powers();
    match o {
      case None => Field(data, p, 0, 1);
      case Some(v) =>
        NextField(data, p, 1, 1, ToBits(v, n));
        Field(data, p + 1, v, n);
    }
  }

  /** Numbers in fields of `n` bits. */
  function EncodeAll(s: seq<nat>, n: nat): seq<bool> { if s == [] then [] else ToBits(s[0], n) + EncodeAll(s[1..], n) }

  /* ---------- Program configuration ---------- */

  /** An element for a pair of channels or for one. */
  datatype Element = Element(pair: bool, tag: nat)

  /** `program_config_element()` (section 4.5.1.2), without what the parser does not look at. */
  datatype Program = Program(ignored: nat, front: seq<Element>, side: seq<Element>, back: seq<Element>, lfe: seq<nat>,
                             assoc: seq<nat>, cc: seq<Element>, mono: Option<nat>, stereo: Option<nat>,
                             matrix: Option<nat>, comment: seq<nat>)

  predicate ValidElements(s: seq<Element>) { |s| < 16 && forall i | 0 <= i < |s| :: s[i].tag < 16 }

  predicate ValidTags(s: seq<nat>, n: nat) { |s| < n && forall i | 0 <= i < |s| :: s[i] < 16 }

  /** A comment of more than four bytes may be wider than the reader's step. */
  predicate ValidProgram(g: Program) {
    && g.ignored < 64 && ValidElements(g.front) && ValidElements(g.side) && ValidElements(g.back) && ValidElements(g.cc)
    && ValidTags(g.lfe, 4) && ValidTags(g.assoc, 8) && (g.mono.Some? ==> g.mono.value < 16)
    && (g.stereo.Some? ==> g.stereo.value < 16) && (g.matrix.Some? ==> g.matrix.value < 8)
    && |g.comment| <= 4 && forall i | 0 <= i < |g.comment| :: g.comment[i] < 256
  }

  /** Two channels for each pair and one for each other element. */
  function Speakers(s: seq<Element>): nat {
    if s == [] then 0 else (if s[0].pair then 2 else 1) + Speakers(s[1..])
  }

  /** The channels of a program: those of its front, side and back elements, and one for each LFE. */
  function ChannelsOf(g: Program): nat { Speakers(g.front) + Speakers(g.side) + Speakers(g.back) + |g.lfe| }

  function EncodeElements(s: seq<Element>): seq<bool> {
    if s == [] then [] else ToBits(Num(s[0].pair), 1) + (ToBits(s[0].tag, 4) + EncodeElements(s[1..]))
  }

  function EncodeSizes(g: Program): seq<bool> {
    ToBits(|g.front|, 4) + (ToBits(|g.side|, 4) + (ToBits(|g.back|, 4) + (ToBits(|g.lfe|, 2)
      + (ToBits(|g.assoc|, 3) + ToBits(|g.cc|, 4)))))
  }

  function EncodeDownmix(g: Program): seq<bool> {
    EncodeFlagged(g.mono, 4) + (EncodeFlagged(g.stereo, 4) + EncodeFlagged(g.matrix, 3))
  }

  function EncodeLists(g: Program): seq<bool> {
    EncodeElements(g.front) + (EncodeElements(g.side) + (EncodeElements(g.back)
      + (EncodeAll(g.lfe, 4) + (EncodeAll(g.assoc, 4) + EncodeElements(g.cc)))))
  }

  function EncodeBody(g: Program): seq<bool> {
    ToBits(g.ignored, 6) + (EncodeSizes(g) + (EncodeDownmix(g) + EncodeLists(g)))
  }

  /** A program configuration from position `p` on: its comment begins at a byte boundary. */
  function EncodeProgram(g: Program, p: nat): seq<bool> {
    EncodeBody(g) + (Zeros(Padding(p + |EncodeBody(g)|)) + (ToBits(|g.comment|, 8) + EncodeAll(g.comment, 8)))
  }

  lemma {:induction false} ElementsBack(data: seq<Byte>, p: nat, s: seq<Element>)
    requires data != [] && Here(data, p, EncodeElements(s)) && forall i | 0 <= i < |s| :: s[i].tag < 16
    ensures var r := ElementsAt(data, p, |s|, true);
            |s| + r.0 == Speakers(s) && r.1 == p + |EncodeElements(s)|
    decreases |s|
  {
    hide V, Adv, ToBits, Power2, Here;
    Powers();
    if s != [] {
      var rest := EncodeElements(s[1..]);
      NextField(data, p, Num(s[0].pair), 1, ToBits(s[0].tag, 4) + rest);
      NextField(data, p + 1, s[0].tag, 4, rest);
      ElementsBack(data, p + 5, s[1..]);
    }
  }

  lemma {:induction false} TagsBack(data: seq<Byte>, p: nat, s: seq<nat>)
    requires data != [] && Here(data, p, EncodeAll(s, 4)) && forall i | 0 <= i < |s| :: s[i] < 16
    ensures ElementsAt(data, p, |s|, false) == (0, p + |EncodeAll(s, 4)|)
    decreases |s|
  {
    hide V, Adv, ToBits, Power2, Here;
    Powers();
    if s != [] {
      NextField(data, p, s[0], 4, EncodeAll(s[1..], 4));
      TagsBack(data, p + 4, s[1..]);
    }
  }

  lemma SizesBack(data: seq<Byte>, p: nat, g: Program)
    requires Here(data, p, EncodeSizes(g)) && ValidProgram(g)
    ensures CountsOf(data, p)
         == (Counts(|g.front|, |g.side|, |g.back|, |g.lfe|, |g.assoc|, |g.cc|), p + |EncodeSizes(g)|)
  {
    hide V, Adv, ToBits, Power2, Here;
    Powers();
    var f, e := ToBits(|g.cc|, 4), ToBits(|g.assoc|, 3);
    var d, c, b := ToBits(|g.lfe|, 2), ToBits(|g.back|, 4), ToBits(|g.side|, 4);
    NextField(data, p, |g.front|, 4, b + (c + (d + (e + f))));
    NextField(data, p + 4, |g.side|, 4, c + (d + (e + f)));
    NextField(data, p + 8, |g.back|, 4, d + (e + f));
    NextField(data, p + 12, |g.lfe|, 2, e + f);
    NextField(data, p + 14, |g.assoc|, 3, f);
    Field(data, p + 17, |g.cc|, 4);
  }

  lemma DownmixBack(data: seq<Byte>, p: nat, g: Program)
    requires Here(data, p, EncodeDownmix(g)) && ValidProgram(g)
    ensures DownmixEnd(data, p) == p + |EncodeDownmix(g)|
  {
    hide FlagEnd, EncodeFlagged, Here, Power2;
    Powers();
    var a, b, c := EncodeFlagged(g.mono, 4), EncodeFlagged(g.stereo, 4), EncodeFlagged(g.matrix, 3);
    Split(data, p, a, b + c);
    FlaggedBack(data, p, g.mono, 4);
    Split(data, p + |a|, b, c);
    FlaggedBack(data, p + |a|, g.stereo, 4);
    FlaggedBack(data, p + |a| + |b|, g.matrix, 3);
  }

  lemma ListsBack(data: seq<Byte>, p: nat, g: Program)
    requires Here(data, p, EncodeLists(g)) && ValidProgram(g)
    ensures ListsAt(data, p, Counts(|g.front|, |g.side|, |g.back|, |g.lfe|, |g.assoc|, |g.cc|))
         == (ChannelsOf(g), p + |EncodeLists(g)|)
  {
    hide ElementsAt, EncodeElements, EncodeAll, Here, Speakers;
    HereData(data, p, EncodeLists(g));
    var a, b, c := EncodeElements(g.front), EncodeElements(g.side), EncodeElements(g.back);
    var d, e, f := EncodeAll(g.lfe, 4), EncodeAll(g.assoc, 4), EncodeElements(g.cc);
    Split(data, p, a, b + (c + (d + (e + f))));
    ElementsBack(data, p, g.front);
    var q := p + |a|;
    Split(data, q, b, c + (d + (e + f)));
    ElementsBack(data, q, g.side);
    q := q + |b|;
    Split(data, q, c, d + (e + f));
    ElementsBack(data, q, g.back);
    q := q + |c|;
    Split(data, q, d, e + f);
    TagsBack(data, q, g.lfe);
    q := q + |d|;
    Split(data, q, e, f);
    TagsBack(data, q, g.assoc);
    ElementsBack(data, q + |e|, g.cc);
  }

  lemma HereData(data: seq<Byte>, p: nat, s: seq<bool>)
    requires Here(data, p, s)
    ensures data != []
  {}

  lemma BodyBack(data: seq<Byte>, p: nat, g: Program)
    requires Here(data, p, EncodeBody(g)) && ValidProgram(g)
    ensures ElementListsAt(data, p) == (ChannelsOf(g), p + |EncodeBody(g)|)
  {
    hide V, Here, ToBits, Power2, EncodeSizes, EncodeDownmix, EncodeLists, CountsOf, DownmixEnd, ListsAt, ChannelsOf;
    Powers();
    var a, b, c := EncodeSizes(g), EncodeDownmix(g), EncodeLists(g);
    NextField(data, p, g.ignored, 6, a + (b + c));
    Split(data, p + 6, a, b + c);
    SizesBack(data, p + 6, g);
    Split(data, p + 6 + |a|, b, c);
    DownmixBack(data, p + 6 + |a|, g);
    ListsBack(data, p + 6 + |a| + |b|, g);
  }

  lemma {:induction false} AllLength(s: seq<nat>, n: nat)
    ensures |EncodeAll(s, n)| == |s| * n
  {
    if s != [] { AllLength(s[1..], n); }
  }

  /** Reading an encoded program configuration counts its channels and ends where it ends. */
  lemma ProgramBack(data: seq<Byte>, p: nat, g: Program, channel: int)
    requires Here(data, p, EncodeProgram(g, p)) && ValidProgram(g)
    ensures ProgramAt(data, p, channel) == (channel + ChannelsOf(g), p + |EncodeProgram(g, p)|)
    ensures !LongComment(data, p)
  {
    hide V, Adv, Here, ToBits, Power2, EncodeBody, ElementListsAt, ChannelsOf, Padding, EncodeAll;
    Powers();
    HereData(data, p, EncodeProgram(g, p));
    var a, c := EncodeBody(g), EncodeAll(g.comment, 8);
    var q := p + |a|;
    var pad := Zeros(Padding(q));
    Split(data, p, a, pad + (ToBits(|g.comment|, 8) + c));
    BodyBack(data, p, g);
    Split(data, q, pad, ToBits(|g.comment|, 8) + c);
    NextField(data, Aligned(q), |g.comment|, 8, c);
    AllLength(g.comment, 8);
    CommentIs(data, Aligned(q), |g.comment|);
  }

  lemma CommentIs(data: seq<Byte>, p: nat, n: nat)
    requires data != [] && V(data, p, 8) == n
    ensures CommentEnd(data, p) == p + 8 + n * 8
  {}

  /* ---------- AudioSpecificConfig ---------- */

  /** A sampling rate, by its index or outright. */
  datatype Rate = Listed(index: nat) | Explicit(hz: nat)

  /** Explicit SBR and PS signalling. */
  datatype Sbr = Sbr(ps: bool, rate: Rate)

  /** What a set extension flag adds; which fields stand there depends on the object type. */
  datatype Extra = Extra(subFrames: nat, layerLength: nat, resilience: nat, third: nat)

  /** The general audio part. */
  datatype Ga = Ga(short: bool, core: Option<nat>, program: Option<Program>, layer: nat, extension: Option<Extra>)

  datatype Asc = Asc(objectType: nat, rate: Rate, channelCode: nat, sbr: Option<Sbr>, ga: Ga, ep: nat, direct: nat)

  predicate ValidType(t: nat) { t < 31 || 32 <= t < 96 }

  predicate ValidRate(r: Rate) { match r case Listed(i) => i < 15 case Explicit(hz) => hz < 16777216 }

  predicate ValidGa(g: Ga, objectType: nat) {
    && (g.core.Some? ==> g.core.value < 16384) && (g.program.Some? ==> ValidProgram(g.program.value)) && g.layer < 8
    && (g.extension.Some? ==>
          var x := g.extension.value; x.subFrames < 32 && x.layerLength < 2048 && x.resilience < 8 && x.third < 2)
  }

  /** Channel configuration 0 means a program configuration. */
  predicate ValidAsc(a: Asc) {
    && ValidType(a.objectType) && ValidRate(a.rate) && a.channelCode < 16 && ValidGa(a.ga, a.objectType)
    && (a.channelCode == 0 <==> a.ga.program.Some?)
    && (a.sbr.None? ==> a.objectType != 5 && a.objectType != 29) && (a.sbr.Some? ==> ValidRate(a.sbr.value.rate))
    && a.ep < 4 && a.direct < 2
  }

  function EncodeType(t: nat): seq<bool> {
    if t < 31 then ToBits(t, 5) else ToBits(31, 5) + ToBits(if t < 32 then 0 else t - 32, 6)
  }

  function EncodeRate(r: Rate): seq<bool> {
    match r case Listed(i) => ToBits(i, 4) case Explicit(hz) => ToBits(15, 4) + ToBits(hz, 24)
  }

  function EncodeHead(a: Asc): seq<bool> {
    match a.sbr
    case None => EncodeType(a.objectType) + (EncodeRate(a.rate) + ToBits(a.channelCode, 4))
    case Some(s) => EncodeType(if s.ps then 29 else 5) + (EncodeRate(a.rate) + (ToBits(a.channelCode, 4)
                      + (EncodeRate(s.rate) + EncodeType(a.objectType))))
  }

  /** The general audio part from position `p` on. */
  function EncodeGa(g: Ga, objectType: nat, p: nat): seq<bool> {
    ToBits(Num(g.short), 1) + (EncodeFlagged(g.core, 14) + (ToBits(Num(g.extension.Some?), 1)
      + (EncodeChannels(g, p + 2 + |EncodeFlagged(g.core, 14)|) + EncodeGaEnd(g, objectType))))
  }

  function EncodeChannels(g: Ga, p: nat): seq<bool> {
    match g.program case None => [] case Some(program) => EncodeProgram(program, p)
  }

  function EncodeGaEnd(g: Ga, objectType: nat): seq<bool> {
    (if objectType in {6, 20} then ToBits(g.layer, 3) else [])
    + (match g.extension case None => [] case Some(x) => EncodeExtra(x, objectType))
  }

  /** Error resilience flags for some types, sub-frames and their length for BSAC, and a flag for a third version. */
  function EncodeExtra(x: Extra, objectType: nat): seq<bool> {
    (if objectType == 22 then ToBits(x.subFrames, 5) + ToBits(x.layerLength, 11) else [])
    + (if objectType in {17, 19, 20, 23} then ToBits(x.resilience, 3) else []) + ToBits(x.third, 1)
  }

  function EncodeEp(a: Asc): seq<bool> {
    if a.ep == 3 then ToBits(3, 2) + ToBits(a.direct, 1) else ToBits(a.ep, 2)
  }

  /** An AudioSpecificConfig from position `p` on. */
  function EncodeAsc(a: Asc, p: nat): seq<bool> {
    EncodeHead(a) + ((if IsGA(a.objectType) then EncodeGa(a.ga, a.objectType, p + |EncodeHead(a)|) else [])
                     + (if HasEpConfig(a.objectType) then EncodeEp(a) else []))
  }

  function RateOf(r: Rate): nat
    requires ValidRate(r)
  {
    match r case Listed(i) => SAMPLE_RATES[i] case Explicit(hz) => hz
  }

  /** The configuration an AudioSpecificConfig describes. */
  function ConfigOf(a: Asc): Config
    requires ValidAsc(a)
  {
    Config(a.objectType, RateOf(a.rate),
           if a.channelCode == 0 && IsGA(a.objectType) then ChannelsOf(a.ga.program.value) else Channels(a.channelCode),
           if a.sbr.Some? then 1 else -1, if a.sbr.Some? && a.sbr.value.ps then 1 else -1,
           if a.sbr.Some? then 5 else 0, if a.sbr.Some? then RateOf(a.sbr.value.rate) else 0,
           if !IsGA(a.objectType) then 0 else if a.ga.short then 960 else 1024)
  }

  lemma TypeBack(data: seq<Byte>, p: nat, t: nat)
    requires Here(data, p, EncodeType(t)) && ValidType(t)
    ensures TypeAt(data, p) == (t, p + |EncodeType(t)|)
  {
    hide V, Adv, ToBits, Power2, Here;
    Powers();
    if t < 31 {
      Field(data, p, t, 5);
    } else {
      NextField(data, p, 31, 5, ToBits(t - 32, 6));
      Field(data, p + 5, t - 32, 6);
    }
  }

  lemma RateBack(data: seq<Byte>, p: nat, r: Rate)
    requires Here(data, p, EncodeRate(r)) && ValidRate(r)
    ensures RateAt(data, p) == (RateOf(r), p + |EncodeRate(r)|)
  {
    hide V, Adv, ToBits, Power2, Here;
    Powers();
    match r {
      case Listed(i) => Field(data, p, i, 4);
      case Explicit(hz) =>
        NextField(data, p, 15, 4, ToBits(hz, 24));
        Field(data, p + 4, hz, 24);
    }
  }

  /** The configuration after its head, before the general audio part. */
  function HeadOf(a: Asc): Config
    requires ValidAsc(a)
  {
    ConfigOf(a).(frameLength := 0, channel := Channels(a.channelCode))
  }

  lemma HeadBack(data: seq<Byte>, p: nat, a: Asc)
    requires Here(data, p, EncodeHead(a)) && ValidAsc(a)
    ensures HeadAt(data, p) == (HeadOf(a), p + |EncodeHead(a)|)
  {
    hide V, Adv, ToBits, Power2, Here, EncodeType, EncodeRate, TypeAt, RateAt, ValidGa, Channels, IsGA;
    Powers();
    var t, rate, code := EncodeType(a.objectType), EncodeRate(a.rate), ToBits(a.channelCode, 4);
    match a.sbr {
      case None =>
        Split(data, p, t, rate + code);
        TypeBack(data, p, a.objectType);
        Split(data, p + |t|, rate, code);
        RateBack(data, p + |t|, a.rate);
        Field(data, p + |t| + |rate|, a.channelCode, 4);
      case Some(s) =>
        var outer: nat := if s.ps then 29 else 5;
        var first, ext := EncodeType(outer), EncodeRate(s.rate);
        Split(data, p, first, rate + (code + (ext + t)));
        TypeBack(data, p, outer);
        var q := p + |first|;
        Split(data, q, rate, code + (ext + t));
        RateBack(data, q, a.rate);
        NextField(data, q + |rate|, a.channelCode, 4, ext + t);
        Split(data, q + |rate| + 4, ext, t);
        RateBack(data, q + |rate| + 4, s.rate);
        TypeBack(data, q + |rate| + 4 + |ext|, a.objectType);
    }
  }

  lemma GaEndBack(data: seq<Byte>, p: nat, g: Ga, objectType: nat)
    requires Here(data, p, EncodeGaEnd(g, objectType)) && ValidGa(g, objectType)
    ensures GaEnd(data, p, objectType, g.extension.Some?) == p + |EncodeGaEnd(g, objectType)|
  {
    hide ToBits, Power2;
  }

  /** The channels of the general audio part: those of the head, or of its program configuration. */
  lemma ChannelsBack(data: seq<Byte>, p: nat, g: Ga, channel: int, objectType: nat)
    requires Here(data, p, EncodeChannels(g, p)) && ValidGa(g, objectType) && (channel == 0 <==> g.program.Some?)
    ensures (if channel == 0 then ProgramAt(data, p, 0) else (channel, p))
         == (if channel == 0 then ChannelsOf(g.program.value) else channel, p + |EncodeChannels(g, p)|)
    ensures channel == 0 ==> !LongComment(data, p)
  {
    hide Here, EncodeProgram, ProgramAt, ChannelsOf, ValidProgram, LongComment;
    if channel == 0 { ProgramBack(data, p, g.program.value, 0); }
  }

  lemma GaBack(data: seq<Byte>, p: nat, g: Ga, c: Config)
    requires Here(data, p, EncodeGa(g, c.objectType, p)) && ValidGa(g, c.objectType)
    requires c.channel == 0 <==> g.program.Some?
    ensures GaAt(data, p, c)
         == (c.(frameLength := if g.short then 960 else 1024,
                channel := if c.channel == 0 then ChannelsOf(g.program.value) else c.channel),
             p + |EncodeGa(g, c.objectType, p)|)
    ensures !GaLong(data, p, c)
  {
    hide V, Adv, ToBits, Power2, Here, FlagEnd, EncodeFlagged, GaEnd, EncodeGaEnd, EncodeChannels, ProgramAt;
    hide ChannelsOf, ValidGa, LongComment;
    Powers();
    CoreValid(g, c.objectType);
    var core, end := EncodeFlagged(g.core, 14), EncodeGaEnd(g, c.objectType);
    var q := p + 2 + |core|;
    var channels := EncodeChannels(g, q);
    NextField(data, p, Num(g.short), 1, core + (ToBits(Num(g.extension.Some?), 1) + (channels + end)));
    Split(data, p + 1, core, ToBits(Num(g.extension.Some?), 1) + (channels + end));
    FlaggedBack(data, p + 1, g.core, 14);
    NextField(data, p + 1 + |core|, Num(g.extension.Some?), 1, channels + end);
    Split(data, q, channels, end);
    ChannelsBack(data, q, g, c.channel, c.objectType);
    GaEndBack(data, q + |channels|, g, c.objectType);
  }

  lemma CoreValid(g: Ga, objectType: nat)
    requires ValidGa(g, objectType)
    ensures g.core.Some? ==> g.core.value < Power2(14)
  {
    Powers();
  }

  lemma EpBack(data: seq<Byte>, p: nat, a: Asc)
    requires Here(data, p, EncodeEp(a)) && a.ep < 4 && a.direct < 2
    ensures EpEnd(data, p) == p + |EncodeEp(a)|
  {
    hide V, Adv, ToBits, Power2, Here;
    Powers();
    if a.ep == 3 {
      NextField(data, p, 3, 2, ToBits(a.direct, 1));
      Field(data, p + 2, a.direct, 1);
    } else {
      Field(data, p, a.ep, 2);
    }
  }

  /** Reading an encoded AudioSpecificConfig gives the configuration back and ends where it ends. */
  lemma AscBack(data: seq<Byte>, p: nat, a: Asc)
    requires Here(data, p, EncodeAsc(a, p)) && ValidAsc(a)
    ensures SpecificAt(data, p, 0) == (ConfigOf(a), p + |EncodeAsc(a, p)|)
    ensures !SpecificLong(data, p)
    ensures ConfigOf(a).channel
         == if a.channelCode == 0 && IsGA(a.objectType) then ChannelsOf(a.ga.program.value)
            else if a.channelCode <= 6 then a.channelCode else if a.channelCode == 7 then 8 else -1
  {
    hide V, Adv, ToBits, Power2, Here, EncodeHead, EncodeGa, EncodeEp, HeadAt, GaLong, ChannelsOf;
    hide GaAt, EpEnd, ValidType, ValidRate, ValidGa, RateOf, IsGA, HasEpConfig;
    var head := EncodeHead(a);
    var ga := if IsGA(a.objectType) then EncodeGa(a.ga, a.objectType, p + |head|) else [];
    var ep := if HasEpConfig(a.objectType) then EncodeEp(a) else [];
    Split(data, p, head, ga + ep);
    HeadBack(data, p, a);
    Split(data, p + |head|, ga, ep);
    if IsGA(a.objectType) { GaBack(data, p + |head|, a.ga, HeadOf(a)); }
    if HasEpConfig(a.objectType) { EpBack(data, p + |head| + |ga|, a); }
  }

  /* ---------- An announced size ---------- */

  lemma HeadLength(a: Asc)
    ensures |EncodeHead(a)| <= 100
  {
    hide ToBits;
  }

  lemma {:induction false} ElementsLength(s: seq<Element>)
    ensures |EncodeElements(s)| == 5 * |s|
  {
    hide ToBits;
    if s != [] { ElementsLength(s[1..]); }
  }

  lemma BodyLength(g: Program)
    requires ValidProgram(g)
    ensures |EncodeBody(g)| <= 400
  {
    hide ToBits, EncodeElements, EncodeAll;
    ElementsLength(g.front);
    ElementsLength(g.side);
    ElementsLength(g.back);
    AllLength(g.lfe, 4);
    AllLength(g.assoc, 4);
    ElementsLength(g.cc);
  }

  lemma ProgramLength(g: Program, p: nat)
    requires ValidProgram(g)
    ensures |EncodeProgram(g, p)| <= 500
  {
    hide ToBits, EncodeBody, EncodeAll;
    BodyLength(g);
    AllLength(g.comment, 8);
  }

  lemma GaLength(g: Ga, objectType: nat, p: nat)
    requires ValidGa(g, objectType)
    ensures |EncodeGa(g, objectType, p)| <= 600
  {
    hide ToBits, EncodeProgram, ValidProgram;
    if g.program.Some? { ProgramLength(g.program.value, p + 2 + |EncodeFlagged(g.core, 14)|); }
  }

  lemma AscLength(a: Asc, p: nat)
    requires ValidAsc(a)
    ensures |EncodeAsc(a, p)| <= 1000
  {
    hide ToBits, EncodeHead, EncodeGa, ValidGa, IsGA, HasEpConfig;
    HeadLength(a);
    GaLength(a.ga, a.objectType, p + |EncodeHead(a)|);
  }

  /** As long as sizes fit 31 bits: room for 16 more bits, or none because the size is exceeded already. */
  lemma RoomIs(size: nat, used: nat)
    requires size < 0x8000_0000 && used < 0x8000_0000
    ensures Room(size, used) >= 16 <==> used > size || used + 16 <= size
  {}

  /** Up to the extension a size changes nothing. */
  lemma SizedIs(data: seq<Byte>, p: nat, a: Asc, size: nat)
    requires Here(data, p, EncodeAsc(a, p)) && ValidAsc(a)
    ensures SpecificAt(data, p, size) == ExtensionAt(data, p + |EncodeAsc(a, p)|, size, p, ConfigOf(a))
  {
    hide HeadAt, GaAt, EpEnd, ConfigOf, EncodeAsc, ValidAsc, Here, V, Adv, IsGA, HasEpConfig;
    AscBack(data, p, a);
  }

  lemma ExtensionEnd(data: seq<Byte>, p: nat, size: nat, start: nat, c: Config)
    requires data != [] && p >= start
    ensures ExtensionAt(data, p, size, start, c).1 >= p + 11
       <==> c.extType != 5 && size > 0 && Room(size, p - start) >= 16
    ensures !(c.extType != 5 && size > 0 && Room(size, p - start) >= 16) ==>
              ExtensionAt(data, p, size, start, c) == (c, p)
  {
    hide V, TypeAt, RateAt, PsAt, Room;
  }

  /**
    With an announced size the parser ends with the AudioSpecificConfig
    exactly when that signals SBR itself, or no size is announced, or the size
    covers it with less than 16 bits to spare. It reads on, by eleven bits or
    more, not only when there is more to come but also when the size is too
    small.
   */
  lemma SizedEnd(data: seq<Byte>, p: nat, a: Asc, size: nat)
    requires Here(data, p, EncodeAsc(a, p)) && ValidAsc(a) && size < 0x8000_0000
    ensures var n, r := |EncodeAsc(a, p)|, SpecificAt(data, p, size);
            && (r == (ConfigOf(a), p + n) <==> a.sbr.Some? || size == 0 || n <= size < n + 16)
            && (r != (ConfigOf(a), p + n) ==> r.1 >= p + n + 11)
  {
    hide ExtensionAt, SpecificAt, EncodeAsc, ValidAsc, V;
    var n := |EncodeAsc(a, p)|;
    AscLength(a, p);
    SizedIs(data, p, a, size);
    RoomIs(size, n);
    ExtensionEnd(data, p + n, size, p, ConfigOf(a));
    SbrKept(a);
  }

  lemma SbrKept(a: Asc)
    requires ValidAsc(a)
    ensures ConfigOf(a).extType == 5 <==> a.sbr.Some?
  {}

  /** The AudioSpecificConfig 00010 0100 0010 000 of two-channel AAC LC at 44100 Hz. */
  const TWO_CHANNELS := Asc(2, Listed(4), 2, None, Ga(false, None, None, 0, None), 0, 0)

  lemma TwoChannelsIs(p: nat)
    ensures EncodeAsc(TWO_CHANNELS, p)
         == [false, false, false, true, false] + [false, true, false, false]
          + [false, false, true, false] + [false, false, false]
    ensures ValidAsc(TWO_CHANNELS)
  {
    hide ValidAsc, EncodeHead, EncodeGa, EncodeEp;
    TwoChannelsHead();
    TwoChannelsGa(p + |EncodeHead(TWO_CHANNELS)|);
    TwoChannelsValid();
  }

  lemma TwoChannelsHead()
    ensures EncodeHead(TWO_CHANNELS)
         == [false, false, false, true, false] + [false, true, false, false] + [false, false, true, false]
  {
    assert ToBits(2, 5) == [false, false, false, true, false];
    assert ToBits(4, 4) == [false, true, false, false];
    assert ToBits(2, 4) == [false, false, true, false];
  }

  lemma TwoChannelsGa(p: nat)
    ensures EncodeGa(TWO_CHANNELS.ga, 2, p) == [false, false, false]
  {
    assert ToBits(0, 1) == [false];
  }

  lemma TwoChannelsValid()
    ensures ValidAsc(TWO_CHANNELS)
  {}

  /** An announced size of 5 for these 16 bits: 27 are read. */
  lemma SizeTooSmall(data: seq<Byte>, p: nat)
    requires Here(data, p, EncodeAsc(TWO_CHANNELS, p)) && V(data, p + 16, 11) != 0x2b7
    ensures SpecificAt(data, p, 5) == (ConfigOf(TWO_CHANNELS), p + 27)
  {
    hide EncodeAsc, ValidAsc, SpecificAt, V;
    TwoChannelsIs(p);
    SizedIs(data, p, TWO_CHANNELS, 5);
    SbrKept(TWO_CHANNELS);
    assert Room(5, 16) >= 16;
  }

  /* ---------- The backward-compatible extension ---------- */

  /** SBR announced behind the configuration, with its rate when it is there, and PS behind that. */
  datatype Extension = Extension(rate: Option<Rate>, ps: Option<bool>)

  predicate ValidExtension(e: Extension) {
    (e.rate.Some? ==> ValidRate(e.rate.value)) && (e.ps.Some? ==> e.rate.Some?)
  }

  function EncodePs(ps: Option<bool>): seq<bool> {
    match ps case None => [] case Some(b) => ToBits(0x548, 11) + ToBits(Num(b), 1)
  }

  function EncodeExtension(e: Extension): seq<bool> {
    ToBits(0x2b7, 11) + (EncodeType(5)
      + match e.rate case None => ToBits(0, 1) case Some(rate) => ToBits(1, 1) + (EncodeRate(rate) + EncodePs(e.ps)))
  }

  /** What an extension adds to a configuration. */
  function Extended(c: Config, e: Extension): Config
    requires ValidExtension(e)
  {
    c.(extType := 5, sbr := Num(e.rate.Some?), extRate := if e.rate.Some? then RateOf(e.rate.value) else c.extRate,
       ps := if e.ps.Some? then Num(e.ps.value) else c.ps)
  }

  lemma RoomLeft(size: nat, used: nat)
    requires used <= size < 0x8000_0000
    ensures Room(size, used) == size - used
  {}

  lemma Eleven()
    ensures Power2(11) == 2048
  {
    assert Power2(6) == 64;
  }

  lemma PsBack(data: seq<Byte>, p: nat, ps: Option<bool>, room: nat, c: Config)
    requires Here(data, p, EncodePs(ps)) && (if ps.Some? then room >= 12 else room < 12)
    ensures PsAt(data, p, room, c) == (if ps.Some? then c.(ps := Num(ps.value)) else c, p + |EncodePs(ps)|)
  {
    hide V, Adv, ToBits, Power2, Here;
    Powers();
    Eleven();
    if ps.Some? {
      NextField(data, p, 0x548, 11, ToBits(Num(ps.value), 1));
      Field(data, p + 11, Num(ps.value), 1);
    }
  }

  /** An extension is read back when the announced size leaves too little behind it to look for PS once more. */
  lemma ExtensionBack(data: seq<Byte>, p: nat, e: Extension, size: nat, start: nat, c: Config)
    requires Here(data, p, EncodeExtension(e)) && ValidExtension(e) && c.extType != 5 && p >= start
    requires p - start + |EncodeExtension(e)| <= size < 0x8000_0000
    requires e.rate.Some? && e.ps.None? ==> size < p - start + |EncodeExtension(e)| + 12
    ensures ExtensionAt(data, p, size, start, c) == (Extended(c, e), p + |EncodeExtension(e)|)
  {
    hide V, Adv, ToBits, Power2, Here, EncodeType, EncodeRate, TypeAt, RateAt, PsAt, EncodePs, Room, RateOf, ValidRate;
    Powers();
    Eleven();
    var t := EncodeType(5);
    var rest :=
      match e.rate
      case None => ToBits(0, 1)
      case Some(rate) => ToBits(1, 1) + (EncodeRate(rate) + EncodePs(e.ps));
    RoomLeft(size, p - start);
    FiveLength();
    NextField(data, p, 0x2b7, 11, t + rest);
    Split(data, p + 11, t, rest);
    TypeBack(data, p + 11, 5);
    var q := p + 11 + |t|;
    match e.rate {
      case None => Field(data, q, 0, 1);
      case Some(rate) =>
        var r, ps := EncodeRate(rate), EncodePs(e.ps);
        NextField(data, q, 1, 1, r + ps);
        Split(data, q + 1, r, ps);
        RateBack(data, q + 1, rate);
        RoomLeft(size, q + 1 + |r| - start);
        PsLength(e.ps);
        var c' := c.(extType := 5, sbr := 1, extRate := RateOf(rate));
        PsBack(data, q + 1 + |r|, e.ps, size - (q + 1 + |r| - start), c');
    }
  }

  lemma FiveLength()
    ensures |EncodeType(5)| == 5
  {}

  lemma PsLength(ps: Option<bool>)
    ensures |EncodePs(ps)| == if ps.Some? then 12 else 0
  {}
}
