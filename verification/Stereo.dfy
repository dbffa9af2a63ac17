/** M/S and intensity stereo, libfaad/ms.c and libfaad/is.c: two nested sweeps that never meet in a bin. */
module Stereo {
  const NOISE_HCB := 13
  const INTENSITY_HCB2 := 14
  const INTENSITY_HCB := 15

  /** Window groups and scalefactor bands; `top` is `swb_offset_max`. */
  datatype Layout = Layout(lengths: seq<nat>, maxSfb: nat, swb: seq<nat>, top: nat)

  /** The fields of `ic_stream` that the two stages read. */
  datatype Ics = Ics(layout: Layout, maskPresent: int, msUsed: seq<seq<bool>>, sfbCb: seq<seq<int>>,
                     scaleFactors: seq<seq<int>>)

  /* ---------- The bins of a layout ---------- */

  /** The group of each window. */
  function Groups(lengths: seq<nat>, g: nat): seq<nat>
    requires g <= |lengths|
  {
    if g == 0 then [] else Groups(lengths, g - 1) + seq(lengths[g - 1], _ => g - 1)
  }

  lemma GroupAt(lengths: seq<nat>, g: nat, b: nat, n: nat)
    requires g < n <= |lengths| && b < lengths[g]
    ensures |Groups(lengths, g)| + b < |Groups(lengths, n)| && Groups(lengths, n)[|Groups(lengths, g)| + b] == g
  {
    if n > g + 1 { GroupAt(lengths, g, b, n - 1); }
  }

  function Windows(layout: Layout): nat { |Groups(layout.lengths, |layout.lengths|)| }

  function GroupOf(layout: Layout, w: nat): nat
    requires w < Windows(layout)
  {
    Groups(layout.lengths, |layout.lengths|)[w]
  }

  lemma {:induction false} GroupsBelow(lengths: seq<nat>, n: nat)
    requires n <= |lengths|
    ensures forall w | 0 <= w < |Groups(lengths, n)| :: Groups(lengths, n)[w] < n
  {
    if n > 0 { GroupsBelow(lengths, n - 1); }
  }

  function Base(nshort: nat, w: nat): nat { w * nshort }

  lemma BaseOrder(nshort: nat, v: nat, w: nat)
    requires v < w
    ensures Base(nshort, v) + nshort <= Base(nshort, w)
  {
    if v + 1 < w {
      BaseOrder(nshort, v, w - 1);
      assert Base(nshort, w) == Base(nshort, w - 1) + nshort;
    } else {
      assert Base(nshort, w) == Base(nshort, v) + nshort;
    }
  }

  function Min(a: nat, b: nat): nat { if a < b then a else b }

  /** Bin `k` lies in scalefactor band `s` of window `w`. */
  predicate Place(layout: Layout, nshort: nat, w: nat, s: nat, k: nat) {
    && w < Windows(layout) && s < layout.maxSfb && s + 1 < |layout.swb|
    && Base(nshort, w) + layout.swb[s] <= k < Base(nshort, w) + Min(layout.swb[s + 1], layout.top)
  }

  /** Bands in ascending order; several windows do not overlap; every bin is inside the spectrum. */
  ghost predicate Good(layout: Layout, nshort: nat, length: nat) {
    && |layout.swb| > layout.maxSfb
    && (forall s, t | 0 <= s < t < |layout.swb| :: layout.swb[s] <= layout.swb[t])
    && (Windows(layout) > 1 ==> layout.top <= nshort)
    && (forall w: nat | w < Windows(layout) :: Base(nshort, w) + layout.top <= length)
  }

  /** A bin lies in at most one band of one window. */
  lemma Unique(layout: Layout, nshort: nat, length: nat, w: nat, s: nat, v: nat, t: nat, k: nat)
    requires Good(layout, nshort, length) && Place(layout, nshort, w, s, k) && Place(layout, nshort, v, t, k)
    ensures w == v && s == t
  {
    hide Base;
    if w < v { BaseOrder(nshort, w, v); }
    if v < w { BaseOrder(nshort, v, w); }
  }

  datatype Spot = Nowhere | Spot(w: nat, s: nat)

  /** Where a bin is. */
  ghost function SpotOf(layout: Layout, nshort: nat, k: nat): (r: Spot)
    ensures r.Spot? ==> Place(layout, nshort, r.w, r.s, k)
    ensures r.Nowhere? ==> forall w: nat, s: nat :: !Place(layout, nshort, w, s, k)
  {
    if exists w: nat, s: nat :: Place(layout, nshort, w, s, k) then
      var w: nat, s: nat :| Place(layout, nshort, w, s, k); Spot(w, s)
    else Nowhere
  }

  lemma SpotIs(layout: Layout, nshort: nat, length: nat, w: nat, s: nat, k: nat)
    requires Good(layout, nshort, length)
    ensures Place(layout, nshort, w, s, k) <==> SpotOf(layout, nshort, k) == Spot(w, s)
  {
    var r := SpotOf(layout, nshort, k);
    hide Place;
    if Place(layout, nshort, w, s, k) { Unique(layout, nshort, length, w, s, r.w, r.s, k); }
  }

  /** Bins already swept when band `s` of window `w` is next. */
  ghost predicate Swept(spot: Spot, w: nat, s: nat) {
    spot.Spot? && (spot.w < w || (spot.w == w && spot.s < s))
  }

  /* ---------- Which bands, and what happens there ---------- */

  /** The per-band tables cover all bands of all groups. */
  ghost predicate Covers<T>(table: seq<seq<T>>, layout: Layout) {
    |table| >= |layout.lengths| && forall g | 0 <= g < |layout.lengths| :: |table[g]| >= layout.maxSfb
  }

  ghost predicate Tables(ics: Ics, layout: Layout) {
    Covers(ics.msUsed, layout) && Covers(ics.sfbCb, layout) && Covers(ics.scaleFactors, layout)
  }

  predicate Inside(ics: Ics, g: nat, s: nat) {
    && g < |ics.sfbCb| && s < |ics.sfbCb[g]| && g < |ics.msUsed| && s < |ics.msUsed[g]|
    && g < |ics.scaleFactors| && s < |ics.scaleFactors[g]|
  }

  function IsIntensity(ics: Ics, g: nat, s: nat): int
    requires Inside(ics, g, s)
  {
    if ics.sfbCb[g][s] == INTENSITY_HCB then 1 else if ics.sfbCb[g][s] == INTENSITY_HCB2 then -1 else 0
  }

  function InvertIntensity(ics: Ics, g: nat, s: nat): int
    requires Inside(ics, g, s)
  {
    if ics.maskPresent == 1 then 1 - 2 * (if ics.msUsed[g][s] then 1 else 0) else 1
  }

  predicate IsNoise(ics: Ics, g: nat, s: nat)
    requires Inside(ics, g, s)
  {
    ics.sfbCb[g][s] == NOISE_HCB
  }

  /** M/S applies to this band: asked for, and neither intensity stereo nor noise. */
  predicate MsOn(ics: Ics, icsr: Ics, g: nat, s: nat)
    requires Inside(ics, g, s) && Inside(icsr, g, s)
  {
    && ics.maskPresent >= 1 && (ics.msUsed[g][s] || ics.maskPresent == 2)
    && IsIntensity(icsr, g, s) == 0 && !IsNoise(ics, g, s)
  }

  /** The factor from left to right in an intensity band. */
  function Factor(ics: Ics, icsr: Ics, scale: int -> real, g: nat, s: nat): real
    requires Inside(ics, g, s) && Inside(icsr, g, s)
  {
    var f := scale(icsr.scaleFactors[g][s]);
    if IsIntensity(icsr, g, s) != InvertIntensity(ics, g, s) then -f else f
  }

  lemma InsideAt(ics: Ics, layout: Layout, w: nat, s: nat)
    requires Tables(ics, layout) && w < Windows(layout) && s < layout.maxSfb
    ensures Inside(ics, GroupOf(layout, w), s)
  {
    GroupsBelow(layout.lengths, |layout.lengths|);
  }

  ghost predicate MsSpot(ics: Ics, icsr: Ics, layout: Layout, spot: Spot) {
    && spot.Spot? && spot.w < Windows(layout)
    && Inside(ics, GroupOf(layout, spot.w), spot.s) && Inside(icsr, GroupOf(layout, spot.w), spot.s)
    && MsOn(ics, icsr, GroupOf(layout, spot.w), spot.s)
  }

  ghost predicate IsSpot(icsr: Ics, layout: Layout, spot: Spot) {
    && spot.Spot? && spot.w < Windows(layout) && Inside(icsr, GroupOf(layout, spot.w), spot.s)
    && IsIntensity(icsr, GroupOf(layout, spot.w), spot.s) != 0
  }

  /** Left and right where M/S is on: sum and difference. */
  function Mixed(on: bool, l: real, r: real): (real, real) { if on then (l + r, l - r) else (l, r) }

  /** The two outputs of the M/S stage. */
  ghost function MsOf(ics: Ics, icsr: Ics, nshort: nat, l: seq<real>, r: seq<real>): (p: (seq<real>, seq<real>))
    requires |l| == |r|
    ensures |p.0| == |p.1| == |l|
  {
    (seq(|l|, k requires 0 <= k < |l| =>
       Mixed(MsSpot(ics, icsr, ics.layout, SpotOf(ics.layout, nshort, k)), l[k], r[k]).0),
     seq(|l|, k requires 0 <= k < |l| =>
       Mixed(MsSpot(ics, icsr, ics.layout, SpotOf(ics.layout, nshort, k)), l[k], r[k]).1))
  }

  /** The bands of the right channel, cut off where the left channel's spectrum ends. */
  function IsLayout(ics: Ics, icsr: Ics): Layout { icsr.layout.(top := ics.layout.top) }

  ghost function IsValue(ics: Ics, icsr: Ics, scale: int -> real, layout: Layout, spot: Spot, l: real): real
    requires IsSpot(icsr, layout, spot) && Inside(ics, GroupOf(layout, spot.w), spot.s)
  {
    l * Factor(ics, icsr, scale, GroupOf(layout, spot.w), spot.s)
  }

  /** The right output of the intensity stage. */
  ghost function IsOf(ics: Ics, icsr: Ics, scale: int -> real, nshort: nat, l: seq<real>, r: seq<real>): (q: seq<real>)
    requires |l| == |r| && Tables(ics, IsLayout(ics, icsr)) && Tables(icsr, IsLayout(ics, icsr))
    ensures |q| == |r|
  {
    var layout := IsLayout(ics, icsr);
    seq(|r|, k requires 0 <= k < |r| => IsBin(ics, icsr, scale, layout, SpotOf(layout, nshort, k), l[k], r[k]))
  }

  ghost function IsBin(ics: Ics, icsr: Ics, scale: int -> real, layout: Layout, spot: Spot, l: real, r: real): real
    requires Tables(ics, layout) && Tables(icsr, layout)
  {
    if IsSpot(icsr, layout, spot) && spot.s < layout.maxSfb then
      InsideAt(ics, layout, spot.w, spot.s);
      IsValue(ics, icsr, scale, layout, spot, l)
    else r
  }

  /* ---------- ms_decode ---------- */

  /** The spectra when band `s` of window `w` is next. */
  ghost predicate MsState(ics: Ics, icsr: Ics, nshort: nat, l0: seq<real>, r0: seq<real>, l: seq<real>, r: seq<real>,
                          w: nat, s: nat) {
    && |l| == |r| == |l0| == |r0|
    && forall k: nat | k < |l| ::
         var spot := SpotOf(ics.layout, nshort, k);
         (l[k], r[k]) == Mixed(MsSpot(ics, icsr, ics.layout, spot) && Swept(spot, w, s), l0[k], r0[k])
  }

  /** The innermost loop. */
  method MsBand(l: array<real>, r: array<real>, base: nat, lo: nat, hi: nat)
    requires l.Length == r.Length && l != r && base + hi <= l.Length
    modifies l, r
    ensures forall k: nat | k < l.Length ::
              (l[k], r[k]) == Mixed(base + lo <= k < base + hi, old(l[k]), old(r[k]))
  {
    var i := lo;
    while i < hi
      invariant lo <= i && (i <= hi || i == lo)
      invariant forall k: nat | k < l.Length ::
                  (l[k], r[k]) == Mixed(base + lo <= k < base + i, old(l[k]), old(r[k]))
    {
      var k := base + i;
      var tmp := l[k] - r[k];
      l[k] := l[k] + r[k];
      r[k] := tmp;
      i := i + 1;
    }
  }

  lemma MsBandDone(ics: Ics, icsr: Ics, nshort: nat, l0: seq<real>, r0: seq<real>, l: seq<real>, r: seq<real>,
                   l': seq<real>, r': seq<real>, w: nat, s: nat)
    requires Good(ics.layout, nshort, |l0|) && MsState(ics, icsr, nshort, l0, r0, l, r, w, s) && |l'| == |r'| == |l0|
    requires w < Windows(ics.layout) && s < ics.layout.maxSfb
    requires forall k: nat | k < |l| ::
               (l'[k], r'[k])
                 == Mixed(MsSpot(ics, icsr, ics.layout, Spot(w, s)) && Place(ics.layout, nshort, w, s, k), l[k], r[k])
    ensures MsState(ics, icsr, nshort, l0, r0, l', r', w, s + 1)
  {
    hide MsSpot, Good, Place;
    forall k: nat | k < |l|
      ensures var spot := SpotOf(ics.layout, nshort, k);
              (l'[k], r'[k]) == Mixed(MsSpot(ics, icsr, ics.layout, spot) && Swept(spot, w, s + 1), l0[k], r0[k])
    {
      SpotIs(ics.layout, nshort, |l0|, w, s, k);
    }
  }

  lemma MsWindowDone(ics: Ics, icsr: Ics, nshort: nat, l0: seq<real>, r0: seq<real>, l: seq<real>, r: seq<real>, w: nat)
    requires MsState(ics, icsr, nshort, l0, r0, l, r, w, ics.layout.maxSfb)
    ensures MsState(ics, icsr, nshort, l0, r0, l, r, w + 1, 0)
  {
    hide MsSpot;
    forall k: nat | k < |l|
      ensures var spot := SpotOf(ics.layout, nshort, k);
              (l[k], r[k]) == Mixed(MsSpot(ics, icsr, ics.layout, spot) && Swept(spot, w + 1, 0), l0[k], r0[k])
    {
      var spot := SpotOf(ics.layout, nshort, k);
      assert Swept(spot, w, ics.layout.maxSfb) <==> Swept(spot, w + 1, 0);
    }
  }

  lemma MsOff(ics: Ics, icsr: Ics, nshort: nat, l: seq<real>, r: seq<real>)
    requires ics.maskPresent < 1 && |l| == |r|
    ensures MsOf(ics, icsr, nshort, l, r) == (l, r)
  {
    var m := MsOf(ics, icsr, nshort, l, r);
    assert m.0 == l && m.1 == r;
  }

  lemma MsSpotIs(ics: Ics, icsr: Ics, spot: Spot)
    ensures MsSpot(ics, icsr, ics.layout, spot) ==> spot.Spot?
  {}

  lemma MsDone(ics: Ics, icsr: Ics, nshort: nat, l0: seq<real>, r0: seq<real>, l: seq<real>, r: seq<real>)
    requires MsState(ics, icsr, nshort, l0, r0, l, r, Windows(ics.layout), 0)
    ensures (l, r) == MsOf(ics, icsr, nshort, l0, r0)
  {
    hide MsSpot;
    var m := MsOf(ics, icsr, nshort, l0, r0);
    forall k: nat | k < |l|
      ensures l[k] == m.0[k] && r[k] == m.1[k]
    {
      var spot := SpotOf(ics.layout, nshort, k);
      assert spot.Spot? ==> Swept(spot, Windows(ics.layout), 0);
      assert MsSpot(ics, icsr, ics.layout, spot) ==> spot.Spot? by { MsSpotIs(ics, icsr, spot); }
      assert (l[k], r[k]) == Mixed(MsSpot(ics, icsr, ics.layout, spot), l0[k], r0[k]);
    }
    assert l == m.0 && r == m.1;
  }

  /** The loop over the scalefactor bands of one window. */
  method MsWindow(ics: Ics, icsr: Ics, l: array<real>, r: array<real>, nshort: nat, g: nat, group: nat,
                  ghost l0: seq<real>, ghost r0: seq<real>)
    requires l.Length == r.Length == |l0| && l != r && Good(ics.layout, nshort, l.Length) && ics.maskPresent >= 1
    requires Tables(ics, ics.layout) && Tables(icsr, ics.layout)
    requires group < Windows(ics.layout) && g == GroupOf(ics.layout, group)
    requires MsState(ics, icsr, nshort, l0, r0, l[..], r[..], group, 0)
    modifies l, r
    ensures MsState(ics, icsr, nshort, l0, r0, l[..], r[..], group + 1, 0)
  {
    hide MsState, Tables, GroupOf, Base;
    var sfb := 0;
    while sfb < ics.layout.maxSfb
      invariant 0 <= sfb <= ics.layout.maxSfb
      invariant MsState(ics, icsr, nshort, l0, r0, l[..], r[..], group, sfb)
    {
      ghost var l1, r1 := l[..], r[..];
      InsideAt(ics, ics.layout, group, sfb);
      InsideAt(icsr, ics.layout, group, sfb);
      if (ics.msUsed[g][sfb] || ics.maskPresent == 2) && IsIntensity(icsr, g, sfb) == 0 && !IsNoise(ics, g, sfb) {
        assert Base(nshort, group) + ics.layout.top <= l.Length;
        MsBand(l, r, Base(nshort, group), ics.layout.swb[sfb], Min(ics.layout.swb[sfb + 1], ics.layout.top));
      }
      MsBandDone(ics, icsr, nshort, l0, r0, l1, r1, l[..], r[..], group, sfb);
      sfb := sfb + 1;
    }
    MsWindowDone(ics, icsr, nshort, l0, r0, l[..], r[..], group);
  }

  /** `ms_decode`. */
  method MsDecode(ics: Ics, icsr: Ics, l: array<real>, r: array<real>, frameLen: nat)
    requires l.Length == r.Length && l != r && Good(ics.layout, frameLen / 8, l.Length)
    requires Tables(ics, ics.layout) && Tables(icsr, ics.layout)
    modifies l, r
    ensures (l[..], r[..]) == MsOf(ics, icsr, frameLen / 8, old(l[..]), old(r[..]))
  {
    hide Good, Tables;
    var nshort, group := frameLen / 8, 0;
    ghost var l0, r0 := l[..], r[..];
    if ics.maskPresent >= 1 {
      var g := 0;
      while g < |ics.layout.lengths|
        invariant 0 <= g <= |ics.layout.lengths| && group == |Groups(ics.layout.lengths, g)|
        invariant MsState(ics, icsr, nshort, l0, r0, l[..], r[..], group, 0)
      {
        var b := 0;
        while b < ics.layout.lengths[g]
          invariant 0 <= b <= ics.layout.lengths[g] && group == |Groups(ics.layout.lengths, g)| + b
          invariant MsState(ics, icsr, nshort, l0, r0, l[..], r[..], group, 0)
        {
          GroupAt(ics.layout.lengths, g, b, |ics.layout.lengths|);
          MsWindow(ics, icsr, l, r, nshort, g, group, l0, r0);
          group := group + 1;
          b := b + 1;
        }
        g := g + 1;
      }
      MsDone(ics, icsr, nshort, l0, r0, l[..], r[..]);
    } else {
      MsOff(ics, icsr, nshort, l0, r0);
    }
  }

  /* ---------- is_decode ---------- */

  /** The right spectrum when band `s` of window `w` is next. */
  ghost predicate IsState(ics: Ics, icsr: Ics, scale: int -> real, nshort: nat, l: seq<real>, r0: seq<real>,
                          r: seq<real>, w: nat, s: nat)
    requires Tables(ics, IsLayout(ics, icsr)) && Tables(icsr, IsLayout(ics, icsr))
  {
    && |l| == |r0| == |r|
    && forall k: nat | k < |r| ::
         var spot := SpotOf(IsLayout(ics, icsr), nshort, k);
         r[k] == if Swept(spot, w, s) then IsBin(ics, icsr, scale, IsLayout(ics, icsr), spot, l[k], r0[k]) else r0[k]
  }

  /** Some swept window has intensity stereo in band `j`. */
  ghost predicate Cleared(icsr: Ics, layout: Layout, w: nat, s: nat, j: nat) {
    exists v: nat :: j < layout.maxSfb && IsSpot(icsr, layout, Spot(v, j)) && Swept(Spot(v, j), w, s)
  }

  /** Prediction is off in the cleared bands and as before elsewhere. */
  ghost predicate PredictionState(icsr: Ics, layout: Layout, was: seq<int>, now: seq<int>, w: nat, s: nat) {
    && |was| == |now|
    && forall j: nat | j < |now| :: now[j] == if Cleared(icsr, layout, w, s, j) then 0 else was[j]
  }

  /** The innermost loop: scale from left to right, then turn the sign. */
  method IsBand(l: array<real>, r: array<real>, base: nat, lo: nat, hi: nat, scale: real, negate: bool)
    requires l.Length == r.Length && l != r && base + hi <= l.Length
    modifies r
    ensures forall k: nat | k < r.Length ::
              r[k] == if base + lo <= k < base + hi then l[k] * (if negate then -scale else scale) else old(r[k])
  {
    var i := lo;
    while i < hi
      invariant lo <= i && (i <= hi || i == lo)
      invariant forall k: nat | k < r.Length ::
                  r[k] == if base + lo <= k < base + i then l[k] * (if negate then -scale else scale) else old(r[k])
    {
      r[base + i] := l[base + i] * scale;
      if negate { r[base + i] := -r[base + i]; }
      i := i + 1;
    }
  }

  lemma IsBandDone(ics: Ics, icsr: Ics, scale: int -> real, nshort: nat, l: seq<real>, r0: seq<real>, r: seq<real>,
                   r': seq<real>, w: nat, s: nat)
    requires Tables(ics, IsLayout(ics, icsr)) && Tables(icsr, IsLayout(ics, icsr))
    requires var layout := IsLayout(ics, icsr); Good(layout, nshort, |l|) && w < Windows(layout) && s < layout.maxSfb
    requires IsState(ics, icsr, scale, nshort, l, r0, r, w, s) && |r'| == |r|
    requires forall k: nat | k < |r| ::
               r'[k] == if Place(IsLayout(ics, icsr), nshort, w, s, k)
                        then IsBin(ics, icsr, scale, IsLayout(ics, icsr), Spot(w, s), l[k], r[k]) else r[k]
    ensures IsState(ics, icsr, scale, nshort, l, r0, r', w, s + 1)
  {
    hide Good, Place, Tables, IsLayout, IsBin;
    forall k: nat | k < |r|
      ensures var spot := SpotOf(IsLayout(ics, icsr), nshort, k);
              r'[k] == if Swept(spot, w, s + 1) then IsBin(ics, icsr, scale, IsLayout(ics, icsr), spot, l[k], r0[k])
                  else r0[k]
    {
      SpotIs(IsLayout(ics, icsr), nshort, |l|, w, s, k);
    }
  }

  lemma IsWindowDone(ics: Ics, icsr: Ics, scale: int -> real, nshort: nat, l: seq<real>, r0: seq<real>, r: seq<real>,
                     w: nat)
    requires Tables(ics, IsLayout(ics, icsr)) && Tables(icsr, IsLayout(ics, icsr))
    requires IsState(ics, icsr, scale, nshort, l, r0, r, w, icsr.layout.maxSfb)
    ensures IsState(ics, icsr, scale, nshort, l, r0, r, w + 1, 0)
  {
    hide Tables, IsBin;
  }

  lemma IsDone(ics: Ics, icsr: Ics, scale: int -> real, nshort: nat, l: seq<real>, r0: seq<real>, r: seq<real>)
    requires Tables(ics, IsLayout(ics, icsr)) && Tables(icsr, IsLayout(ics, icsr))
    requires IsState(ics, icsr, scale, nshort, l, r0, r, Windows(IsLayout(ics, icsr)), 0)
    ensures r == IsOf(ics, icsr, scale, nshort, l, r0)
  {
    hide Tables, IsValue, Factor;
  }

  lemma PredictionMoves(icsr: Ics, layout: Layout, was: seq<int>, now: seq<int>, now': seq<int>, w: nat, s: nat)
    requires PredictionState(icsr, layout, was, now, w, s) && |now'| == |now| && s < layout.maxSfb
    requires forall j: nat | j < |now| :: now'[j] == if j == s && IsSpot(icsr, layout, Spot(w, s)) then 0 else now[j]
    ensures PredictionState(icsr, layout, was, now', w, s + 1)
  {
    hide IsSpot;
    forall j: nat | j < |now|
      ensures Cleared(icsr, layout, w, s + 1, j)
         <==> Cleared(icsr, layout, w, s, j) || (j == s && IsSpot(icsr, layout, Spot(w, s)))
    {
      if Cleared(icsr, layout, w, s, j) {
        var v: nat :| IsSpot(icsr, layout, Spot(v, j)) && Swept(Spot(v, j), w, s);
        assert Swept(Spot(v, j), w, s + 1);
      }
      if j == s && IsSpot(icsr, layout, Spot(w, s)) { assert Swept(Spot(w, j), w, s + 1); }
      if Cleared(icsr, layout, w, s + 1, j) {
        var v: nat :| IsSpot(icsr, layout, Spot(v, j)) && Swept(Spot(v, j), w, s + 1);
        assert Swept(Spot(v, j), w, s) || (v == w && j == s);
      }
    }
  }

  lemma PredictionWindow(icsr: Ics, layout: Layout, was: seq<int>, now: seq<int>, w: nat)
    requires PredictionState(icsr, layout, was, now, w, layout.maxSfb)
    ensures PredictionState(icsr, layout, was, now, w + 1, 0)
  {
    hide IsSpot;
    forall j: nat | j < |now|
      ensures Cleared(icsr, layout, w, layout.maxSfb, j) <==> Cleared(icsr, layout, w + 1, 0, j)
    {
      if Cleared(icsr, layout, w, layout.maxSfb, j) {
        var v: nat :| IsSpot(icsr, layout, Spot(v, j)) && Swept(Spot(v, j), w, layout.maxSfb);
        assert Swept(Spot(v, j), w + 1, 0);
      }
      if Cleared(icsr, layout, w + 1, 0, j) {
        var v: nat :| j < layout.maxSfb && IsSpot(icsr, layout, Spot(v, j)) && Swept(Spot(v, j), w + 1, 0);
        assert Swept(Spot(v, j), w, layout.maxSfb);
      }
    }
  }

  /** The loop over the scalefactor bands of one window. */
  method IsWindow(ics: Ics, icsr: Ics, scale: int -> real, l: array<real>, r: array<real>, used: array<int>,
                  usedRight: array<int>, nshort: nat, g: nat, group: nat, ghost r0: seq<real>, ghost was: seq<int>,
                  ghost wasRight: seq<int>)
    requires l.Length == r.Length && l != r && Tables(ics, IsLayout(ics, icsr)) && Tables(icsr, IsLayout(ics, icsr))
    requires Good(IsLayout(ics, icsr), nshort, l.Length) && group < Windows(IsLayout(ics, icsr))
    requires g == GroupOf(IsLayout(ics, icsr), group)
    requires used != usedRight && used.Length >= icsr.layout.maxSfb && usedRight.Length >= icsr.layout.maxSfb
    requires IsState(ics, icsr, scale, nshort, l[..], r0, r[..], group, 0)
    requires PredictionState(icsr, IsLayout(ics, icsr), was, used[..], group, 0)
    requires PredictionState(icsr, IsLayout(ics, icsr), wasRight, usedRight[..], group, 0)
    modifies r, used, usedRight
    ensures IsState(ics, icsr, scale, nshort, l[..], r0, r[..], group + 1, 0)
    ensures PredictionState(icsr, IsLayout(ics, icsr), was, used[..], group + 1, 0)
    ensures PredictionState(icsr, IsLayout(ics, icsr), wasRight, usedRight[..], group + 1, 0)
  {
    hide IsState, PredictionState, Tables, GroupOf, Base;
    ghost var layout := IsLayout(ics, icsr);
    var sfb := 0;
    while sfb < icsr.layout.maxSfb
      invariant 0 <= sfb <= icsr.layout.maxSfb
      invariant IsState(ics, icsr, scale, nshort, l[..], r0, r[..], group, sfb)
      invariant PredictionState(icsr, layout, was, used[..], group, sfb)
      invariant PredictionState(icsr, layout, wasRight, usedRight[..], group, sfb)
    {
      ghost var r1, u1, v1 := r[..], used[..], usedRight[..];
      InsideAt(ics, layout, group, sfb);
      InsideAt(icsr, layout, group, sfb);
      if IsIntensity(icsr, g, sfb) != 0 {
        used[sfb] := 0;
        usedRight[sfb] := 0;
        assert Base(nshort, group) + layout.top <= l.Length;
        IsBand(l, r, Base(nshort, group), icsr.layout.swb[sfb], Min(icsr.layout.swb[sfb + 1], ics.layout.top),
               scale(icsr.scaleFactors[g][sfb]), IsIntensity(icsr, g, sfb) != InvertIntensity(ics, g, sfb));
      }
      IsBandDone(ics, icsr, scale, nshort, l[..], r0, r1, r[..], group, sfb);
      PredictionMoves(icsr, layout, was, u1, used[..], group, sfb);
      PredictionMoves(icsr, layout, wasRight, v1, usedRight[..], group, sfb);
      sfb := sfb + 1;
    }
    IsWindowDone(ics, icsr, scale, nshort, l[..], r0, r[..], group);
    PredictionWindow(icsr, layout, was, used[..], group);
    PredictionWindow(icsr, layout, wasRight, usedRight[..], group);
  }

  /** `is_decode`; `scale(sf)` stands for 0.5 to the power sf / 4. The left spectrum is not modified. */
  method IsDecode(ics: Ics, icsr: Ics, scale: int -> real, l: array<real>, r: array<real>, used: array<int>,
                  usedRight: array<int>, frameLen: nat)
    requires l.Length == r.Length && l != r && Tables(ics, IsLayout(ics, icsr)) && Tables(icsr, IsLayout(ics, icsr))
    requires Good(IsLayout(ics, icsr), frameLen / 8, l.Length)
    requires used != usedRight && used.Length >= icsr.layout.maxSfb && usedRight.Length >= icsr.layout.maxSfb
    modifies r, used, usedRight
    ensures r[..] == IsOf(ics, icsr, scale, frameLen / 8, l[..], old(r[..]))
    ensures PredictionState(icsr, IsLayout(ics, icsr), old(used[..]), used[..], Windows(icsr.layout), 0)
    ensures PredictionState(icsr, IsLayout(ics, icsr), old(usedRight[..]), usedRight[..], Windows(icsr.layout), 0)
  {
    hide Good, Tables, IsSpot;
    var nshort, group, g := frameLen / 8, 0, 0;
    ghost var layout, r0, was, wasRight := IsLayout(ics, icsr), r[..], used[..], usedRight[..];
    while g < |icsr.layout.lengths|
      invariant 0 <= g <= |icsr.layout.lengths| && group == |Groups(icsr.layout.lengths, g)|
      invariant IsState(ics, icsr, scale, nshort, l[..], r0, r[..], group, 0)
      invariant PredictionState(icsr, layout, was, used[..], group, 0)
      invariant PredictionState(icsr, layout, wasRight, usedRight[..], group, 0)
    {
      var b := 0;
      while b < icsr.layout.lengths[g]
        invariant 0 <= b <= icsr.layout.lengths[g] && group == |Groups(icsr.layout.lengths, g)| + b
        invariant IsState(ics, icsr, scale, nshort, l[..], r0, r[..], group, 0)
        invariant PredictionState(icsr, layout, was, used[..], group, 0)
        invariant PredictionState(icsr, layout, wasRight, usedRight[..], group, 0)
      {
        GroupAt(icsr.layout.lengths, g, b, |icsr.layout.lengths|);
        IsWindow(ics, icsr, scale, l, r, used, usedRight, nshort, g, group, r0, was, wasRight);
        group := group + 1;
        b := b + 1;
      }
      g := g + 1;
    }
    IsDone(ics, icsr, scale, nshort, l[..], r0, r[..]);
  }

  /* ---------- How the two stages interact ---------- */

  /** No band has both stages, so with one layout for both channels no bin has. */
  lemma Disjoint(ics: Ics, icsr: Ics, spot: Spot)
    requires ics.layout == icsr.layout
    ensures !(MsSpot(ics, icsr, ics.layout, spot) && IsSpot(icsr, IsLayout(ics, icsr), spot))
  {}

  /** In either order the two stages give the same spectra. */
  lemma Commute(ics: Ics, icsr: Ics, scale: int -> real, nshort: nat, l: seq<real>, r: seq<real>)
    requires |l| == |r| && ics.layout == icsr.layout && Tables(ics, ics.layout) && Tables(icsr, ics.layout)
    ensures var m := MsOf(ics, icsr, nshort, l, r);
            var i := IsOf(ics, icsr, scale, nshort, l, r);
            (m.0, IsOf(ics, icsr, scale, nshort, m.0, m.1)) == MsOf(ics, icsr, nshort, l, i)
  {
    hide Tables;
    var m, i := MsOf(ics, icsr, nshort, l, r), IsOf(ics, icsr, scale, nshort, l, r);
    var a, b := IsOf(ics, icsr, scale, nshort, m.0, m.1), MsOf(ics, icsr, nshort, l, i);
    forall k: nat | k < |l|
      ensures m.0[k] == b.0[k] && a[k] == b.1[k]
    {
      var spot := SpotOf(ics.layout, nshort, k);
      Disjoint(ics, icsr, spot);
      hide MsSpot, IsSpot, IsValue;
    }
    assert m.0 == b.0 && a == b.1;
  }

  /** Twice the M/S stage doubles the selected bins of both channels and changes nothing else. */
  lemma MsTwice(ics: Ics, icsr: Ics, nshort: nat, l: seq<real>, r: seq<real>, k: nat)
    requires |l| == |r| && k < |l|
    ensures var m := MsOf(ics, icsr, nshort, l, r);
            var t := MsOf(ics, icsr, nshort, m.0, m.1);
            var f := if MsSpot(ics, icsr, ics.layout, SpotOf(ics.layout, nshort, k)) then 2.0 else 1.0;
            t.0[k] == f * l[k] && t.1[k] == f * r[k]
  {
    hide MsSpot;
  }

  /** Twice the intensity stage is once. */
  lemma IsTwice(ics: Ics, icsr: Ics, scale: int -> real, nshort: nat, l: seq<real>, r: seq<real>)
    requires |l| == |r| && Tables(ics, IsLayout(ics, icsr)) && Tables(icsr, IsLayout(ics, icsr))
    ensures IsOf(ics, icsr, scale, nshort, l, IsOf(ics, icsr, scale, nshort, l, r))
         == IsOf(ics, icsr, scale, nshort, l, r)
  {
    hide Tables, IsValue, IsSpot;
  }

  /* ---------- Bin by bin ---------- */

  /** The right spectrum in an intensity band: codebook 15 keeps the sign, 14 turns it,
      and a set mask turns it again. */
  lemma FourCases(ics: Ics, icsr: Ics, scale: int -> real, nshort: nat, l: seq<real>, r: seq<real>, w: nat, s: nat,
                  k: nat)
    requires |l| == |r| && k < |r| && Tables(ics, IsLayout(ics, icsr)) && Tables(icsr, IsLayout(ics, icsr))
    requires Good(IsLayout(ics, icsr), nshort, |l|) && Place(IsLayout(ics, icsr), nshort, w, s, k)
    ensures var g := GroupOf(IsLayout(ics, icsr), w);
            Inside(ics, g, s) && Inside(icsr, g, s)
    ensures var g := GroupOf(IsLayout(ics, icsr), w);
            var masked := ics.maskPresent == 1 && ics.msUsed[g][s];
            var x, q := scale(icsr.scaleFactors[g][s]) * l[k], IsOf(ics, icsr, scale, nshort, l, r)[k];
            && (icsr.sfbCb[g][s] == 15 && !masked ==> q == x)
            && (icsr.sfbCb[g][s] == 15 && masked ==> q == -x)
            && (icsr.sfbCb[g][s] == 14 && !masked ==> q == -x)
            && (icsr.sfbCb[g][s] == 14 && masked ==> q == x)
            && (icsr.sfbCb[g][s] != 14 && icsr.sfbCb[g][s] != 15 ==> q == r[k])
  {
    hide Good, Tables, Base;
    SpotIs(IsLayout(ics, icsr), nshort, |l|, w, s, k);
    InsideAt(ics, IsLayout(ics, icsr), w, s);
    InsideAt(icsr, IsLayout(ics, icsr), w, s);
  }

  /** Sum and difference where asked for, with neither noise on the left nor intensity on the right. */
  lemma SumAndDifference(ics: Ics, icsr: Ics, nshort: nat, l: seq<real>, r: seq<real>, w: nat, s: nat, k: nat)
    requires |l| == |r| && k < |r| && Tables(ics, ics.layout) && Tables(icsr, ics.layout)
    requires Good(ics.layout, nshort, |l|) && Place(ics.layout, nshort, w, s, k)
    ensures var g := GroupOf(ics.layout, w);
            Inside(ics, g, s) && Inside(icsr, g, s)
    ensures var g := GroupOf(ics.layout, w);
            var m := MsOf(ics, icsr, nshort, l, r);
            if (ics.maskPresent == 2 || (ics.maskPresent >= 1 && ics.msUsed[g][s]))
               && ics.sfbCb[g][s] != 13 && icsr.sfbCb[g][s] != 14 && icsr.sfbCb[g][s] != 15
            then m.0[k] == l[k] + r[k] && m.1[k] == l[k] - r[k]
            else m.0[k] == l[k] && m.1[k] == r[k]
  {
    hide Good, Tables, Base;
    SpotIs(ics.layout, nshort, |l|, w, s, k);
    InsideAt(ics, ics.layout, w, s);
    InsideAt(icsr, ics.layout, w, s);
  }
}
