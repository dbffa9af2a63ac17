/** The LATM/LOAS parser of libfaad/decoder.c. */
module Latm {
  import opened BitWords
  import opened BitReader
  import opened LatmSyntax

  /** `faad_getbits`, in terms of the syntax functions. */
  method Take(r: Reader, ghost data: seq<Byte>, n: nat) returns (v: nat)
    requires r.Reads(data) && n <= 32
    modifies r
    ensures Read(r, data, old(r.Pos()), old(r.error))
    ensures v == V(data, old(r.Pos()), n) && r.Pos() == Adv(data, old(r.Pos()), n)
  {
    v := r.GetBits(data, n);
  }

  /** The reader still reads `data` and has not gone back behind `p`. */
  ghost predicate Read(r: Reader, data: seq<Byte>, p: int, error: bool)
    reads r, r.buffer
  {
    0 <= p <= r.Pos() && r.Reads(data) && r.error == error
  }

  lemma AtNatural(r: Reader, data: seq<Byte>)
    requires r.Reads(data)
    ensures r.Pos() >= 0
  {
    r.PosNatural(data);
  }

  /** `faad_flushbits` of bits that are there to flush. */
  method Skip(r: Reader, ghost data: seq<Byte>, n: nat)
    requires r.Reads(data) && n <= r.bitsLeft + 32
    modifies r
    ensures Read(r, data, old(r.Pos()), old(r.error)) && r.Pos() == Adv(data, old(r.Pos()), n)
  {
    AtNatural(r, data);
    r.FlushBits(data, n);
  }

  method ReadObjectType(r: Reader, ghost data: seq<Byte>) returns (t: nat)
    requires r.Reads(data)
    modifies r
    ensures Read(r, data, old(r.Pos()), old(r.error)) && (t, r.Pos()) == TypeAt(data, old(r.Pos()))
  {
    hide Reader.Reads, V;
    t := Take(r, data, 5);
    if t == 31 {
      var more := Take(r, data, 6);
      t := 32 + more;
    }
  }

  method ReadSamplerate(r: Reader, ghost data: seq<Byte>) returns (rate: nat)
    requires r.Reads(data)
    modifies r
    ensures Read(r, data, old(r.Pos()), old(r.error)) && (rate, r.Pos()) == RateAt(data, old(r.Pos()))
  {
    hide Reader.Reads;
    var index := Take(r, data, 4);
    FourBits(data, old(r.Pos()));
    hide V;
    if index != 15 { return SAMPLE_RATES[index]; }
    rate := Take(r, data, 24);
  }

  lemma FourBits(data: seq<Byte>, p: int)
    requires p >= 0
    ensures V(data, p, 4) < 16
  {
    ValueBound(Bits(data, p, 4));
    assert Power2(4) == 16;
  }

  /** `n` elements of four bits, each after a flag when `flagged`; returns how many flags were set. */
  method SkipElements(r: Reader, ghost data: seq<Byte>, n: nat, flagged: bool) returns (set1: nat)
    requires r.Reads(data)
    modifies r
    ensures Read(r, data, old(r.Pos()), old(r.error)) && (set1, r.Pos()) == ElementsAt(data, old(r.Pos()), n, flagged)
  {
    hide Reader.Reads, V;
    AtNatural(r, data);
    set1 := 0;
    var i := 0;
    while i < n
      invariant i <= n && Read(r, data, old(r.Pos()), old(r.error))
      invariant var e := ElementsAt(data, r.Pos(), n - i, flagged);
                (set1 + e.0, e.1) == ElementsAt(data, old(r.Pos()), n, flagged)
    {
      if flagged {
        var tmp := Take(r, data, 1);
        if tmp == 1 { set1 := set1 + 1; }
      }
      var tag := Take(r, data, 4);
      i := i + 1;
    }
  }

  method SkipIfFlag(r: Reader, ghost data: seq<Byte>, n: nat)
    requires r.Reads(data) && n <= 32
    modifies r
    ensures Read(r, data, old(r.Pos()), old(r.error)) && r.Pos() == FlagEnd(data, old(r.Pos()), n)
  {
    hide Reader.Reads, V;
    var flag := Take(r, data, 1);
    if flag != 0 { var skipped := Take(r, data, n); }
  }

  method Align(r: Reader, ghost data: seq<Byte>)
    requires r.Reads(data)
    modifies r
    ensures Read(r, data, old(r.Pos()), old(r.error)) && r.Pos() == Aligned(old(r.Pos()))
  {
    var skipped := r.ByteAlign(data);
    AlignedIs(old(r.Pos()), skipped);
  }

  lemma AlignedIs(p: nat, skipped: nat)
    requires (p + skipped) % 8 == 0 && skipped < 8
    ensures Aligned(p) == p + skipped
  {}

  method ReadElementCounts(r: Reader, ghost data: seq<Byte>) returns (n: Counts)
    requires r.Reads(data)
    modifies r
    ensures Read(r, data, old(r.Pos()), old(r.error)) && (n, r.Pos()) == CountsOf(data, old(r.Pos()))
  {
    hide Reader.Reads, V, Adv;
    var front := Take(r, data, 4);
    var side := Take(r, data, 4);
    var back := Take(r, data, 4);
    var lfe := Take(r, data, 2);
    var assoc := Take(r, data, 3);
    var cc := Take(r, data, 4);
    n := Counts(front, side, back, lfe, assoc, cc);
  }

  /** Mono, stereo and matrix downmix. */
  method SkipDownmix(r: Reader, ghost data: seq<Byte>)
    requires r.Reads(data)
    modifies r
    ensures Read(r, data, old(r.Pos()), old(r.error)) && r.Pos() == DownmixEnd(data, old(r.Pos()))
  {
    hide Reader.Reads, FlagEnd;
    SkipIfFlag(r, data, 4);
    SkipIfFlag(r, data, 4);
    SkipIfFlag(r, data, 3);
  }

  /** The element lists of a program configuration. */
  method ReadLists(r: Reader, ghost data: seq<Byte>, n: Counts, channel: int) returns (channels: int)
    requires r.Reads(data)
    modifies r
    ensures Read(r, data, old(r.Pos()), old(r.error))
    ensures (channels - channel, r.Pos()) == ListsAt(data, old(r.Pos()), n)
  {
    hide Reader.Reads, V, Adv, ElementsAt;
    var pairs := SkipElements(r, data, n.front, true);
    channels := channel + n.front + pairs;
    pairs := SkipElements(r, data, n.side, true);
    channels := channels + n.side + pairs;
    pairs := SkipElements(r, data, n.back, true);
    channels := channels + n.back + pairs;
    pairs := SkipElements(r, data, n.lfe, false);
    channels := channels + n.lfe;
    pairs := SkipElements(r, data, n.assoc, false);
    pairs := SkipElements(r, data, n.cc, true);
  }

  /** `Mpeg4GAProgramConfigElement`; `ok` is false when the comment is longer than a reader step. */
  method ReadProgramConfig(r: Reader, ghost data: seq<Byte>, channel: int) returns (ok: bool, channels: int)
    requires r.Reads(data)
    modifies r
    ensures Read(r, data, old(r.Pos()), old(r.error))
    ensures ok ==> (channels, r.Pos()) == ProgramAt(data, old(r.Pos()), channel)
    ensures !ok ==> LongComment(data, old(r.Pos()))
  {
    hide Reader.Reads, V, Adv, CountsOf, DownmixEnd, ListsAt, Aligned;
    var ignored := Take(r, data, 6);
    var n := ReadElementCounts(r, data);
    SkipDownmix(r, data);
    channels := ReadLists(r, data, n, channel);
    Align(r, data);
    var comment := Take(r, data, 8);
    ok := comment * 8 <= r.bitsLeft + 32;
    if ok { Skip(r, data, comment * 8); }
  }

  /** `Mpeg4GASpecificConfig`. */
  method ReadGASpecific(r: Reader, ghost data: seq<Byte>, c: Config) returns (ok: bool, cfg: Config)
    requires r.Reads(data)
    modifies r
    ensures Read(r, data, old(r.Pos()), old(r.error)) && (ok ==> (cfg, r.Pos()) == GaAt(data, old(r.Pos()), c))
    ensures !ok ==> GaLong(data, old(r.Pos()), c)
  {
    hide Reader.Reads, V, Adv, FlagEnd, ProgramAt, GaEnd, LongComment;
    ok := true;
    var short := Take(r, data, 1);
    cfg := c.(frameLength := if short != 0 then 960 else 1024);
    SkipIfFlag(r, data, 14);
    var extension := Take(r, data, 1);
    if cfg.channel == 0 {
      var channels;
      ok, channels := ReadProgramConfig(r, data, cfg.channel);
      cfg := cfg.(channel := channels);
      if !ok { return; }
    }
    SkipGaEnd(r, data, cfg.objectType, extension != 0);
  }

  /** What follows the channels. */
  method SkipGaEnd(r: Reader, ghost data: seq<Byte>, objectType: nat, extension: bool)
    requires r.Reads(data)
    modifies r
    ensures Read(r, data, old(r.Pos()), old(r.error)) && r.Pos() == GaEnd(data, old(r.Pos()), objectType, extension)
  {
    hide Reader.Reads, V;
    AtNatural(r, data);
    var ignored;
    if objectType == 6 || objectType == 20 { ignored := Take(r, data, 3); }
    if extension {
      if objectType == 22 { ignored := Take(r, data, 16); }
      if objectType == 17 || objectType == 19 || objectType == 20 || objectType == 23 { ignored := Take(r, data, 3); }
      ignored := Take(r, data, 1);
    }
  }

  method ReadExtension(r: Reader, ghost data: seq<Byte>, maxSize: int, start: nat, was: Config) returns (cfg: Config)
    requires r.Reads(data) && r.Pos() >= start
    modifies r
    ensures Read(r, data, old(r.Pos()), old(r.error))
    ensures (cfg, r.Pos()) == ExtensionAt(data, old(r.Pos()), maxSize, start, was)
  {
    hide Reader.Reads, V, TypeAt, RateAt, Adv, Room;
    AtNatural(r, data);
    cfg := was;
    if cfg.extType != 5 && maxSize > 0 && Room(maxSize, r.Pos() - start) >= 16 {
      var sync := Take(r, data, 11);
      if sync == 0x2b7 {
        var t := ReadObjectType(r, data);
        cfg := cfg.(extType := t);
        if t == 5 {
          var sbr := Take(r, data, 1);
          cfg := cfg.(sbr := sbr);
          if sbr == 1 {
            var rate := ReadSamplerate(r, data);
            cfg := cfg.(extRate := rate);
            if maxSize > 0 && Room(maxSize, r.Pos() - start) >= 12 {
              sync := Take(r, data, 11);
              if sync == 0x548 {
                var ps := Take(r, data, 1);
                cfg := cfg.(ps := ps);
              }
            }
          }
        }
      }
    }
  }

  /** The fields `Mpeg4ReadAudioSpecificInfo` reads, with all its branches. */
  method ReadSpecificFields(r: Reader, ghost data: seq<Byte>, maxSize: int) returns (ok: bool, cfg: Config)
    requires r.Reads(data)
    modifies r
    ensures Read(r, data, old(r.Pos()), old(r.error))
    ensures (ok ==> (cfg, r.Pos()) == SpecificAt(data, old(r.Pos()), maxSize))
    ensures !ok ==> SpecificLong(data, old(r.Pos()))
  {
    hide Reader.Reads, V, Adv, TypeAt, RateAt, GaAt, GaLong, ExtensionAt, IsGA, HasEpConfig;
    AtNatural(r, data);
    ok := true;
    var start := r.Pos();
    var t := ReadObjectType(r, data);
    var rate := ReadSamplerate(r, data);
    var chan := Take(r, data, 4);
    cfg := Config(t, rate, if chan == 7 then 8 else if chan >= 8 then -1 else chan, -1, -1, 0, 0, 0);
    if t == 5 || t == 29 {
      cfg := cfg.(sbr := 1, ps := if t == 29 then 1 else -1, extType := 5);
      rate := ReadSamplerate(r, data);
      t := ReadObjectType(r, data);
      cfg := cfg.(extRate := rate, objectType := t);
    }
    assert (cfg, r.Pos()) == HeadAt(data, start);
    if IsGA(t) {
      ok, cfg := ReadGASpecific(r, data, cfg);
      if !ok { return; }
    }
    if HasEpConfig(cfg.objectType) {
      var ep := Take(r, data, 2);
      if ep == 3 { var direct := Take(r, data, 1); }
    }
    cfg := ReadExtension(r, data, maxSize, start, cfg);
  }

  /** The loop that replays the consumed bits from the saved copy of the reader. */
  method Replay(s: Reader, ghost data: seq<Byte>, bits: nat) returns (extra: seq<Byte>)
    requires s.Reads(data) && (s.error ==> bits == 0)
    modifies s
    ensures old(s.Pos()) >= 0 && extra == Packed(Bits(data, old(s.Pos()), bits))
  {
    hide Bits, PaddedByte, Shifted;
    s.PosNatural(data);
    ghost var p: nat := s.Pos();
    ghost var all := Bits(data, p, bits);
    extra := [];
    var n, i := (bits + 7) / 8, 0;
    if n > MAX_EXTRA_SIZE { n := MAX_EXTRA_SIZE; }
    while i < n
      invariant i <= n && s.Reads(data) && s.error == old(s.error) && |extra| == i
      invariant s.Pos() == p + if 8 * i <= bits then 8 * i else bits
      invariant forall k | 0 <= k < i :: extra[k] == PaddedByte(all, k)
    {
      var read := if bits - 8 * i < 8 then bits - 8 * i else 8;
      var v := s.GetBits(data, read);
      ShiftedIs(data, p, bits, i, v);
      extra := extra + [Shifted(v, read)];
      i := i + 1;
    }
  }

  /** `v << (8 - read)` in a byte. */
  function Shifted(v: nat, read: nat): Byte requires read <= 8 { ToBits(v * Power2(8 - read), 8) }

  lemma ShiftedAs(v: nat, read: nat, x: nat)
    requires read <= 8 && v * Power2(8 - read) == x
    ensures Shifted(v, read) == ToBits(x, 8)
  {}

  /** The bits, shifted up to the top of a byte. */
  lemma PadByte(s: seq<bool>)
    requires |s| <= 8
    ensures Shifted(Value(s), |s|) == s + Zeros(8 - |s|)
  {
    hide ToBits, Value, Power2, Shifted;
    var k: nat := 8 - |s|;
    ValueShift(s, k);
    ToBitsValue(s + Zeros(k));
    ShiftedAs(Value(s), |s|, Value(s + Zeros(k)));
  }

  lemma ShiftedIs(data: seq<Byte>, p: nat, bits: nat, i: nat, v: nat)
    requires 8 * i < bits
    requires v == Value(Bits(data, p + 8 * i, if bits - 8 * i < 8 then bits - 8 * i else 8))
    ensures Shifted(v, if bits - 8 * i < 8 then bits - 8 * i else 8) == PaddedByte(Bits(data, p, bits), i)
  {
    hide Bits, Shifted;
    var n := if bits - 8 * i < 8 then bits - 8 * i else 8;
    BitsPart(data, p, bits, 8 * i, 8 * i + n);
    PadByte(Bits(data, p + 8 * i, n));
    if n == 8 {
      assert Zeros(0) == [];
    } else {
      assert Bits(data, p, bits)[8 * i..] == Bits(data, p, bits)[8 * i..8 * i + n];
    }
  }

  /**
    `Mpeg4ReadAudioSpecificInfo`: whichever branches ran, `extra` holds
    exactly the bits that were consumed, zero padded, up to the size cap.
   */
  method ReadAudioSpecificInfo(r: Reader, ghost data: seq<Byte>, maxSize: int)
    returns (ok: bool, cfg: Config, extra: seq<Byte>, bits: nat)
    requires r.Reads(data)
    modifies r
    ensures Read(r, data, old(r.Pos()), old(r.error)) && r.Pos() == old(r.Pos()) + bits
    ensures ok ==> (cfg, r.Pos()) == SpecificAt(data, old(r.Pos()), maxSize)
    ensures ok ==> extra == Packed(Bits(data, old(r.Pos()), bits))
    ensures !ok ==> SpecificLong(data, old(r.Pos()))
  {
    hide SpecificAt, SpecificLong;
    r.PosNatural(data);
    var start := r.Pos();
    var saved := new Reader.Copy(r);
    ok, cfg := ReadSpecificFields(r, data, maxSize);
    bits := r.Pos() - start;
    extra := [];
    if ok { extra := Replay(saved, data, bits); }
  }

  /** `LatmGetValue`. */
  method GetValue(r: Reader, ghost data: seq<Byte>) returns (v: nat)
    requires r.Reads(data)
    modifies r
    ensures Read(r, data, old(r.Pos()), old(r.error)) && (v, r.Pos()) == ValueAt(data, old(r.Pos()))
  {
    hide Reader.Reads, V;
    var n := Take(r, data, 2);
    v := 0;
    var i := 0;
    while i < n
      invariant i <= n && Read(r, data, old(r.Pos()), old(r.error))
      invariant BytesFrom(data, r.Pos(), n - i, v) == ValueAt(data, old(r.Pos()))
    {
      var b := Take(r, data, 8);
      v := v * 256 + b;
      i := i + 1;
    }
  }

  datatype Status = Done | Unsupported | TooWide

  /** The length fields of other data: continued while a flag is set, so they end with the buffer. */
  method ReadOtherData(r: Reader, ghost data: seq<Byte>) returns (v: nat)
    requires r.Reads(data)
    modifies r
    ensures Read(r, data, old(r.Pos()), old(r.error)) && (v, r.Pos()) == OtherFrom(data, old(r.Pos()), 0)
  {
    hide Reader.Reads, V;
    AtNatural(r, data);
    v := 0;
    var more := true;
    while more
      invariant Read(r, data, old(r.Pos()), old(r.error))
      invariant OtherFrom(data, old(r.Pos()), 0) == if more then OtherFrom(data, r.Pos(), v) else (v, r.Pos())
      decreases more, Remaining(data, r.Pos())
    {
      ghost var p := r.Pos();
      var flag := Take(r, data, 1);
      var b := Take(r, data, 8);
      v := v * 256 + b;
      more := flag != 0;
      if more { InsideBuffer(data, p, 1); }
    }
  }

  method ReadFrameLengthType(r: Reader, ghost data: seq<Byte>, sameTime: bool, s: Stream) returns (st: Stream)
    requires r.Reads(data)
    modifies r
    ensures Read(r, data, old(r.Pos()), old(r.error)) && (st, r.Pos()) == LengthTypeAt(data, old(r.Pos()), sameTime, s)
  {
    hide Reader.Reads, V, Adv;
    var kind := Take(r, data, 3);
    st := s.(lengthType := kind);
    var ignored;
    if kind == 0 {
      ignored := Take(r, data, 8);
      if !sameTime && s.cfg.objectType in {6, 20, 8, 24} { ignored := Take(r, data, 6); }
    } else if kind == 1 {
      var length := Take(r, data, 9);
      st := st.(frameLength := length);
    } else if kind == 3 || kind == 4 || kind == 5 {
      ignored := Take(r, data, 6);
    } else if kind == 6 || kind == 7 {
      ignored := Take(r, data, 1);
    }
  }

  /** The configuration of stream zero. */
  method ReadStream(r: Reader, ghost data: seq<Byte>, version: nat, was: Mux) returns (status: Status, m: Mux)
    requires r.Reads(data)
    modifies r
    ensures Read(r, data, old(r.Pos()), old(r.error)) && (status == Done || status == TooWide)
    ensures status == Done ==> (m, r.Pos()) == LayerAt(data, old(r.Pos()), version, was)
    ensures status == TooWide ==> LayerLong(data, old(r.Pos()), version)
  {
    hide Reader.Reads, V, Adv, ValueAt, SpecificAt, SpecificLong, LengthTypeAt;
    AtNatural(r, data);
    m := was;
    var size: int := 0;
    if version == 1 { size := GetValue(r, data); }
    var ok, cfg, extra, bits := ReadAudioSpecificInfo(r, data, size);
    if !ok { return TooWide, m; }
    size := size - bits;
    if size > 0 {
      if size > r.bitsLeft + 32 { return TooWide, m; }
      Skip(r, data, size);
    }
    var st := ReadFrameLengthType(r, data, m.sameTime, Stream(cfg, extra, 0, 0));
    m := m.(stream := st, streams := 1);
    status := Done;
  }

  /** Other data and CRC. */
  method ReadMuxTail(r: Reader, ghost data: seq<Byte>, version: nat, was: Mux) returns (m: Mux)
    requires r.Reads(data)
    modifies r
    ensures Read(r, data, old(r.Pos()), old(r.error)) && (m, r.Pos()) == TailAt(data, old(r.Pos()), version, was)
  {
    hide Reader.Reads, V, Adv, ValueAt, OtherFrom;
    m := was;
    var other := Take(r, data, 1);
    if other != 0 {
      var v;
      if version == 1 { v := GetValue(r, data); } else { v := ReadOtherData(r, data); }
      m := m.(otherData := v);
    }
    m := m.(crc := -1);
    var hasCrc := Take(r, data, 1);
    if hasCrc != 0 {
      var crc := Take(r, data, 8);
      m := m.(crc := crc);
    }
  }

  /** The head of the configuration. */
  method ReadCounts(r: Reader, ghost data: seq<Byte>, was: Mux) returns (c: Counted)
    requires r.Reads(data)
    modifies r
    ensures Read(r, data, old(r.Pos()), old(r.error)) && c == CountsAt(data, old(r.Pos()), was) && r.Pos() == c.end
  {
    hide Reader.Reads, V, Adv, ValueAt;
    var m := was;
    var version := Take(r, data, 1);
    var versionA := 0;
    if version != 0 { versionA := Take(r, data, 1); }
    if versionA != 0 { return Counted(version, false, m, r.Pos()); }
    m := NO_MUX;
    var ignored;
    if version == 1 { ignored := GetValue(r, data); }
    var sameTime := Take(r, data, 1);
    var subFrames := Take(r, data, 6);
    var programs := Take(r, data, 4);
    m := m.(sameTime := sameTime != 0, subFrames := 1 + subFrames, programs := 1 + programs);
    if m.programs > 1 { return Counted(version, false, m, r.Pos()); }
    var layers := Take(r, data, 3);
    m := m.(layers := 1 + layers);
    c := Counted(version, m.layers <= 1, m, r.Pos());
  }

  /** `LatmReadStreamMuxConfiguration`; what it left in `m` matters even when it gives up. */
  method ReadStreamMuxConfig(r: Reader, ghost data: seq<Byte>, was: Mux) returns (status: Status, m: Mux)
    requires r.Reads(data)
    modifies r
    ensures Read(r, data, old(r.Pos()), old(r.error))
    ensures status != TooWide ==> (status == Done, m, r.Pos()) == MuxAt(data, old(r.Pos()), was)
    ensures status == TooWide ==> MayBeWide(data, old(r.Pos()), was)
  {
    hide Reader.Reads, CountsAt, LayerLong, LayerAt, TailAt;
    var c := ReadCounts(r, data, was);
    m := c.mux;
    if !c.supported { return Unsupported, m; }
    status, m := ReadStream(r, data, c.version, m);
    if status != Done { return; }
    m := ReadMuxTail(r, data, c.version, m);
  }

  /* ---------- Payload ---------- */

  method ReadEscape(r: Reader, ghost data: seq<Byte>) returns (n: nat)
    requires r.Reads(data)
    modifies r
    ensures old(r.Pos()) >= 0 && r.Reads(data) && r.error == old(r.error) && r.Pos() >= old(r.Pos())
    ensures n == EscapeLength(data, old(r.Pos())).0 && r.Pos() == EscapeLength(data, old(r.Pos())).1
  {
    r.PosNatural(data);
    n := 0;
    while true
      invariant r.Reads(data) && r.error == old(r.error) && r.Pos() >= old(r.Pos()) >= 0
      invariant EscapeLength(data, old(r.Pos())) == (n + EscapeLength(data, r.Pos()).0, EscapeLength(data, r.Pos()).1)
      decreases Remaining(data, r.Pos())
    {
      ghost var p := r.Pos();
      var tmp := r.GetBits(data, 8);
      n := n + tmp;
      if tmp != 255 { break; }
      InsideBuffer(data, p, 8);
    }
  }

  method ReadLength(r: Reader, ghost data: seq<Byte>, st: Stream) returns (n: nat)
    requires r.Reads(data)
    modifies r
    ensures old(r.Pos()) >= 0 && r.Reads(data) && r.error == old(r.error) && r.Pos() >= old(r.Pos())
    ensures n == LengthOf(data, old(r.Pos()), st).0 && r.Pos() == LengthOf(data, old(r.Pos()), st).1
  {
    r.PosNatural(data);
    if st.lengthType == 0 {
      n := ReadEscape(r, data);
    } else if st.lengthType == 1 {
      n := st.frameLength / 8;
    } else if st.lengthType == 3 || st.lengthType == 5 || st.lengthType == 7 {
      var ignored := r.GetBits(data, 2);
      n := 0;
    } else {
      n := 0;
    }
  }

  lemma UnrollPayload(data: seq<Byte>, p: nat, m: Mux, k: nat)
    requires k > 0
    ensures var n, q := FirstLength(data, p, m), LengthsEnd(data, p, m.stream, m.layers);
            m.sameTime ==>
              AllPayload(data, p, m, k) == Payload(data, q, n) + AllPayload(data, Adv(data, q, 8 * n), m, k - 1)
  {}

  lemma NoPayload(data: seq<Byte>, m: Mux)
    ensures forall p: nat, k: nat :: k == 0 || !m.sameTime ==> AllPayload(data, p, m, k) == []
  {}

  /** The announcements of all layers; only layer zero's length is kept. */
  method ReadLengths(r: Reader, ghost data: seq<Byte>, m: Mux) returns (n: nat)
    requires r.Reads(data)
    modifies r
    ensures old(r.Pos()) >= 0 && r.Reads(data) && r.error == old(r.error) && r.Pos() >= old(r.Pos())
    ensures n == FirstLength(data, old(r.Pos()), m) && r.Pos() == LengthsEnd(data, old(r.Pos()), m.stream, m.layers)
  {
    hide Reader.Reads, LengthOf;
    r.PosNatural(data);
    n := 0;
    var layer := 0;
    while layer < m.layers
      invariant layer <= m.layers && r.Reads(data) && r.error == old(r.error) && r.Pos() >= old(r.Pos()) >= 0
      invariant layer == 0 ==> n == 0 && r.Pos() == old(r.Pos())
      invariant layer > 0 ==> n == FirstLength(data, old(r.Pos()), m)
      invariant LengthsEnd(data, r.Pos(), m.stream, m.layers - layer)
           == LengthsEnd(data, old(r.Pos()), m.stream, m.layers)
    {
      var length := ReadLength(r, data, m.stream);
      if layer == 0 { n := length; }
      layer := layer + 1;
    }
  }

  /** The reader is ahead of the bytes written in place. */
  ghost predicate Ahead(r: Reader, data: seq<Byte>, acc: nat)
    reads r, r.buffer
  {
    r.Reads(data) && acc <= |data| && (r.error || 8 * acc + 1 <= r.Pos())
  }

  /** Storing byte `acc` leaves every bit the reader has yet to deliver as it was. */
  method Store(r: Reader, ghost data: seq<Byte>, acc: nat, b: Byte)
    requires r.Reads(data) && !r.error && acc < |data| && 8 * acc + 9 <= r.Pos()
    modifies r.buffer
    ensures r.Reads(data) && r.buffer[..] == old(r.buffer[..])[acc := b]
  {
    assert acc < 4 * r.tail;
    r.buffer[acc] := b;
  }

  /** The byte a read returns. */
  function ToByte(v: nat): Byte { ToBits(v, 8) }

  /** The payload loop, writing into the buffer it reads from; `full` when the buffer ends first. */
  method CopyPayload(r: Reader, ghost data: seq<Byte>, start: nat, n: nat) returns (acc: nat, full: bool)
    requires Ahead(r, data, start)
    modifies r, r.buffer
    ensures Ahead(r, data, acc) && r.error == old(r.error) && old(r.Pos()) >= 0
    ensures full <==> start + n > |data|
    ensures !full ==> acc == start + n && r.Pos() == Adv(data, old(r.Pos()), 8 * n)
    ensures !full ==> r.buffer[..] == old(r.buffer[..start]) + Payload(data, old(r.Pos()), n) + old(r.buffer[acc..])
  {
    hide Reader.Reads, Bits, Payload;
    r.PosNatural(data);
    ghost var p: nat := r.Pos();
    ghost var was := r.buffer[..];
    acc, full := start, false;
    BufferLength(r, data);
    NoBytes(data, p, was, start);
    var i := 0;
    while i < n
      invariant i <= n && acc == start + i && Ahead(r, data, acc) && r.error == old(r.error)
      invariant r.Pos() == Adv(data, p, 8 * i)
      invariant |data| == |was| && r.buffer[..] == was[..start] + Payload(data, p, i) + was[acc..]
    {
      if acc >= r.buffer.Length {
        full := true;
        return;
      }
      ErrorIsEmpty(r, data);
      var v := r.GetBits(data, 8);
      ToBitsValue(Bits(data, p + 8 * i, 8));
      Store(r, data, acc, ToByte(v));
      PayloadGrows(data, p, i);
      Stored(was, start, Payload(data, p, i), acc, ToByte(v));
      acc := acc + 1;
      i := i + 1;
    }
  }

  lemma NoBytes(data: seq<Byte>, p: nat, was: seq<Byte>, start: nat)
    requires start <= |was|
    ensures was == was[..start] + Payload(data, p, 0) + was[start..]
  {}

  lemma PayloadGrows(data: seq<Byte>, p: nat, i: nat)
    ensures Payload(data, p, i + 1) == Payload(data, p, i) + [Bits(data, p + 8 * i, 8)]
  {
    hide Bits;
  }

  lemma Stored(was: seq<Byte>, start: nat, s: seq<Byte>, acc: nat, b: Byte)
    requires acc == start + |s| < |was|
    ensures (was[..start] + s + was[acc..])[acc := b] == was[..start] + (s + [b]) + was[acc + 1..]
  {}

  lemma BufferLength(r: Reader, data: seq<Byte>)
    requires r.Reads(data)
    ensures r.buffer.Length == |data|
  {}

  lemma ErrorIsEmpty(r: Reader, data: seq<Byte>)
    requires r.Reads(data)
    ensures r.error <==> data == []
  {}

  /** How a frame ends; `LOASParse` returns the size for Parsed and 0 for NotReady and Full. */
  datatype Outcome = Parsed(size: nat) | NotReady | Full | Unmodelled

  /** What makes a configuration usable. */
  predicate Usable(c: Config) { c.channel != 0 && c.samplerate != 0 && c.frameLength > 0 }

  lemma OneStream(data: seq<Byte>, p: nat, was: Mux)
    ensures var c := MuxAt(data, p, was); c.0 ==> c.1.programs == c.1.layers == c.1.streams == 1
  {
    hide V, Adv, ValueAt, SpecificAt, LengthTypeAt, OtherFrom;
  }

  /** With the first bit read, nothing written yet is ahead of the reader. */
  lemma AheadStart(r: Reader, data: seq<Byte>)
    requires r.Reads(data) && r.Pos() >= Adv(data, 0, 1)
    ensures Ahead(r, data, 0)
  {}

  /** The LATM part of `decoder_sys_t`. */
  class Parser {
    var mux: Mux
    var configured: bool
    var channels: int
    var rate: nat
    var frameLength: nat

    constructor ()
      ensures !configured && mux == NO_MUX
    {
      mux, configured, channels, rate, frameLength := NO_MUX, false, 0, 0, 0;
    }

    /** The chunks of a frame without same-time framing: announcements only, no payload is taken. */
    method SkipChunks(r: Reader, ghost data: seq<Byte>)
      requires r.Reads(data)
      modifies r
      ensures r.Reads(data) && r.error == old(r.error) && r.Pos() >= old(r.Pos())
    {
      hide Reader.Reads, LengthOf;
      var chunks := r.GetBits(data, 4);
      var chunk := 0;
      while chunk < chunks
        invariant chunk <= chunks && r.Reads(data) && r.error == old(r.error) && r.Pos() >= old(r.Pos())
      {
        var index := r.GetBits(data, 4);
        var st := if index == 0 then mux.stream else NO_STREAM;
        var n := ReadLength(r, data, st);
        if st.lengthType == 0 { var auEnd := r.GetBits(data, 1); }
        chunk := chunk + 1;
      }
    }

    /** A new configuration, or the old one when the first bit says so; `start` is where it ends. */
    ghost predicate Configured(data: seq<Byte>, was: Mux, ready: bool, start: nat)
      reads this
    {
      var p := Adv(data, 0, 1);
      var c := MuxAt(data, p, was);
      if V(data, 0, 1) != 0 then start == p && mux == was && configured == ready
      else
        && mux == c.1 && start == c.2
        && configured == (ready || (c.0 && Usable(mux.stream.cfg)))
        && (c.0 ==> channels == mux.stream.cfg.channel && rate == mux.stream.cfg.samplerate)
        && (c.0 ==> frameLength == mux.stream.cfg.frameLength)
    }

    /** Reading the configuration of a frame, if it has one. */
    method Configure(r: Reader, ghost data: seq<Byte>) returns (status: Status, ghost start: nat)
      requires r.Reads(data) && r.Pos() == 0
      modifies this, r
      ensures Read(r, data, 0, old(r.error)) && r.Pos() == start >= Adv(data, 0, 1)
      ensures (status == TooWide ==> V(data, 0, 1) == 0 && MayBeWide(data, Adv(data, 0, 1), old(mux)))
      ensures status != TooWide ==> Configured(data, old(mux), old(configured), start)
      ensures status != TooWide ==> (status == Done <==> V(data, 0, 1) != 0 || MuxAt(data, Adv(data, 0, 1), old(mux)).0)
    {
      hide Reader.Reads, V, Adv, MuxAt, MayBeWide;
      status := Done;
      var sameMux := Take(r, data, 1);
      start := r.Pos();
      if sameMux == 0 {
        var m;
        status, m := ReadStreamMuxConfig(r, data, mux);
        start := r.Pos();
        if status == TooWide { return; }
        mux := m;
        if status == Done { OneStream(data, Adv(data, 0, 1), old(mux)); }
        if status == Done && mux.streams > 0 {
          channels, rate, frameLength := mux.stream.cfg.channel, mux.stream.cfg.samplerate, mux.stream.cfg.frameLength;
          if channels != 0 && rate != 0 && frameLength > 0 { configured := true; }
        }
      }
    }

    /**
      `LOASParse`, in place. Without same-time framing nothing is copied; with
      it the buffer then begins with the payload bytes of all subframes as
      they were in the original buffer, and the rest of it is untouched.
     */
    method LoasParse(buffer: array<Byte>) returns (o: Outcome, ghost start: nat)
      modifies this, buffer
      ensures o.Unmodelled? ==> V(old(buffer[..]), 0, 1) == 0
      ensures o.Unmodelled? ==> MayBeWide(old(buffer[..]), Adv(old(buffer[..]), 0, 1), old(mux))
      ensures !o.Unmodelled? ==> Configured(old(buffer[..]), old(mux), old(configured), start)
      ensures !o.Unmodelled? ==>
                var data, all := old(buffer[..]), AllPayload(old(buffer[..]), start, mux, mux.subFrames);
                var ready := configured && (V(data, 0, 1) != 0 || MuxAt(data, Adv(data, 0, 1), old(mux)).0);
                && o == (if !ready then NotReady else if |all| > |data| then Full else Parsed(|all|))
                && (o.NotReady? ==> buffer[..] == data)
                && (o.Parsed? ==> buffer[..] == all + data[|all|..])
    {
      hide Reader.Reads, AllPayload, V, Adv, MuxAt, MayBeWide, Configured;
      ghost var data := buffer[..];
      var r := new Reader(buffer);
      var status;
      status, start := Configure(r, data);
      if status == TooWide { return Unmodelled, start; }
      if !configured || status == Unsupported { return NotReady, start; }
      AheadStart(r, data);
      var acc, full := SubFrames(r, data);
      if full { return Full, start; }
      var skipped := r.ByteAlign(data);
      o := Parsed(acc);
    }

    /** One subframe with same-time framing. */
    method SubFrame(r: Reader, ghost data: seq<Byte>, start: nat) returns (acc: nat, full: bool)
      requires Ahead(r, data, start)
      modifies r, r.buffer
      ensures old(r.Pos()) >= 0 && Ahead(r, data, acc) && r.error == old(r.error) && r.buffer.Length == |data|
      ensures var p: nat := old(r.Pos());
              var n, q := FirstLength(data, p, mux), LengthsEnd(data, p, mux.stream, mux.layers);
              && (full <==> start + n > |data|)
              && (!full ==> acc == start + n && r.Pos() == Adv(data, q, 8 * n))
              && (!full ==> r.buffer[..] == old(r.buffer[..start]) + Payload(data, q, n) + old(r.buffer[acc..]))
    {
      hide Reader.Reads, Bits, FirstLength, LengthsEnd, Payload;
      BufferLength(r, data);
      acc, full := start, false;
      var n := ReadLengths(r, data, mux);
      if n > 0 { acc, full := CopyPayload(r, data, acc, n); }
    }

    /** The loop over the subframes. */
    method SubFrames(r: Reader, ghost data: seq<Byte>) returns (acc: nat, full: bool)
      requires Ahead(r, data, 0) && r.buffer[..] == data
      modifies r, r.buffer
      ensures r.Reads(data) && old(r.Pos()) >= 0
      ensures var all := AllPayload(data, old(r.Pos()), mux, mux.subFrames);
              && (full ==> |all| > |data|)
              && (!full ==> acc == |all| <= |data| && r.buffer[..] == all + data[|all|..])
    {
      hide Reader.Reads, Bits, FirstLength, LengthsEnd, Payload, AllPayload;
      r.PosNatural(data);
      NoPayload(data, mux);
      ghost var all := AllPayload(data, r.Pos(), mux, mux.subFrames);
      acc, full := 0, false;
      var sub := 0;
      while sub < mux.subFrames
        invariant sub <= mux.subFrames && Ahead(r, data, acc) && r.error == old(r.error) && r.Pos() >= 0
        invariant r.buffer.Length == |data|
        invariant r.buffer[..acc] + AllPayload(data, r.Pos(), mux, mux.subFrames - sub) == all
        invariant r.buffer[acc..] == data[acc..]
      {
        r.PosNatural(data);
        UnrollPayload(data, r.Pos(), mux, mux.subFrames - sub);
        if mux.sameTime {
          acc, full := SubFrame(r, data, acc);
          if full { return; }
        } else {
          SkipChunks(r, data);
        }
        sub := sub + 1;
      }
    }
  }
}
