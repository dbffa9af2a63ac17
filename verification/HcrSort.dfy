/**
  The order in which `reordered_spectral_data` visits the codewords
  (libfaad/hcr.c:266-347): six nested loops that meet every codeword of the
  frame exactly once.
 */
module HcrSort {
  import opened BitWords
  import opened BitReader
  import opened HcrDecode
  import opened HcrSegments
  import opened HcrFrame

  const PRE_SORT_STD: seq<nat> := [11, 9, 7, 5, 3, 1]

  const PRE_SORT_ER: seq<nat> :=
    [11, 31, 30, 29, 28, 27, 26, 25, 24, 23, 22, 21, 20, 19, 18, 17, 16, 9, 7, 5, 3, 1]

  const MAX_CW_LEN: seq<nat> :=
    [0, 11, 9, 20, 16, 13, 11, 14, 12, 17, 14, 49,
     0, 0, 0, 0, 14, 17, 21, 21, 25, 25, 29, 29, 29, 29, 33, 33, 33, 37, 37, 41]

  datatype Section = Section(start: nat, end: nat, cb: nat)

  /** A window group: `offsets` is its row of `sect_sfb_offset`, and `base` the first of its spectral lines. */
  datatype Group = Group(windows: nat, sections: seq<Section>, offsets: seq<nat>, base: nat)

  /** The groups, and for each scalefactor band its width in one window. */
  datatype Bands = Bands(groups: seq<Group>, widths: seq<int>)

  /** Codeword number `q` of a band of a group. */
  datatype Place = Place(g: nat, sfb: nat, q: nat)

  predicate Covers(s: Section, sfb: nat) { s.start <= sfb < s.end }

  ghost predicate Disjoint(sections: seq<Section>) {
    forall i, j, sfb: nat | 0 <= i < j < |sections| && Covers(sections[i], sfb) :: !Covers(sections[j], sfb)
  }

  ghost predicate Regular(b: Bands) {
    forall g | 0 <= g < |b.groups| ::
      b.groups[g].windows > 0 && |b.groups[g].offsets| > |b.widths| && Disjoint(b.groups[g].sections)
  }

  /** `is_good_cb`. */
  predicate IsGoodCb(thisCb: nat, cb: int) {
    && (0 < cb <= 11 || 16 <= cb <= 31)
    && (if thisCb < 11 then cb == thisCb || cb == thisCb + 1 else cb == thisCb)
  }

  /** Spectral lines in a codeword. */
  function Inc(cb: int): nat { if cb < 5 then 4 else 2 }

  /** `group_cws_count`: the codewords of four lines in all windows of the group, 4 * windows / Inc(cb). */
  function PerBlock(b: Bands, g: nat, cb: int): nat
    requires g < |b.groups|
  {
    if Inc(cb) == 4 then b.groups[g].windows else 2 * b.groups[g].windows
  }

  /** `sect_sfb_size`. */
  function Size(b: Bands, g: nat, sfb: nat): int
    requires g < |b.groups| && sfb + 1 < |b.groups[g].offsets|
  {
    b.groups[g].offsets[sfb + 1] as int - b.groups[g].offsets[sfb]
  }

  /** Turns of the loop over `w_idx`. */
  function Blocks(width: int): nat { if width <= 0 then 0 else (width + 3) / 4 }

  /* ---------- The lists the loops make ---------- */

  /** The innermost loop after `k` turns. */
  function WordList(g: nat, sfb: nat, start: nat, size: int, k: nat): seq<Place> {
    if k == 0 then []
    else WordList(g, sfb, start, size, k - 1) + if start + k - 1 < size then [Place(g, sfb, start + (k - 1))] else []
  }

  function SectionWords(b: Bands, thisCb: nat, sfb: nat, w: nat, g: nat, sec: Section): seq<Place>
    requires g < |b.groups| && sfb + 1 < |b.groups[g].offsets|
  {
    var n := PerBlock(b, g, sec.cb);
    if Covers(sec, sfb) && IsGoodCb(thisCb, sec.cb) then WordList(g, sfb, w * n, Size(b, g, sfb), n) else []
  }

  function SectionList(b: Bands, thisCb: nat, sfb: nat, w: nat, g: nat, i: nat): seq<Place>
    requires g < |b.groups| && sfb + 1 < |b.groups[g].offsets| && i <= |b.groups[g].sections|
  {
    if i == 0 then []
    else SectionList(b, thisCb, sfb, w, g, i - 1) + SectionWords(b, thisCb, sfb, w, g, b.groups[g].sections[i - 1])
  }

  function GroupList(b: Bands, thisCb: nat, sfb: nat, w: nat, k: nat): seq<Place>
    requires k <= |b.groups| && forall g | 0 <= g < |b.groups| :: sfb + 1 < |b.groups[g].offsets|
  {
    if k == 0 then []
    else GroupList(b, thisCb, sfb, w, k - 1) + SectionList(b, thisCb, sfb, w, k - 1, |b.groups[k - 1].sections|)
  }

  function BlockList(b: Bands, thisCb: nat, sfb: nat, k: nat): seq<Place>
    requires forall g | 0 <= g < |b.groups| :: sfb + 1 < |b.groups[g].offsets|
  {
    if k == 0 then [] else BlockList(b, thisCb, sfb, k - 1) + GroupList(b, thisCb, sfb, k - 1, |b.groups|)
  }

  function BandList(b: Bands, thisCb: nat, k: nat): seq<Place>
    requires k <= |b.widths| && forall g | 0 <= g < |b.groups| :: |b.groups[g].offsets| > |b.widths|
  {
    if k == 0 then [] else BandList(b, thisCb, k - 1) + BlockList(b, thisCb, k - 1, Blocks(b.widths[k - 1]))
  }

  function SortList(b: Bands, table: seq<nat>, k: nat): seq<Place>
    requires k <= |table| && forall g | 0 <= g < |b.groups| :: |b.groups[g].offsets| > |b.widths|
  {
    if k == 0 then [] else SortList(b, table, k - 1) + BandList(b, table[k - 1], |b.widths|)
  }

  /* ---------- The loops ---------- */

  /** The loops over groups, sections and codewords. */
  method VisitGroups(b: Bands, thisCb: nat, sfb: nat, w: nat) returns (s: seq<Place>)
    requires forall g | 0 <= g < |b.groups| :: sfb + 1 < |b.groups[g].offsets|
    ensures s == GroupList(b, thisCb, sfb, w, |b.groups|)
  {
    s := [];
    var g := 0;
    while g < |b.groups|
      invariant 0 <= g <= |b.groups| && s == GroupList(b, thisCb, sfb, w, g)
    {
      var t := VisitSections(b, thisCb, sfb, w, g);
      s := s + t;
      g := g + 1;
    }
  }

  method VisitSections(b: Bands, thisCb: nat, sfb: nat, w: nat, g: nat) returns (s: seq<Place>)
    requires g < |b.groups| && sfb + 1 < |b.groups[g].offsets|
    ensures s == SectionList(b, thisCb, sfb, w, g, |b.groups[g].sections|)
  {
    s := [];
    var i := 0;
    while i < |b.groups[g].sections|
      invariant 0 <= i <= |b.groups[g].sections| && s == SectionList(b, thisCb, sfb, w, g, i)
    {
      var sec := b.groups[g].sections[i];
      if sec.start <= sfb && sec.end > sfb && IsGoodCb(thisCb, sec.cb) {
        var t := VisitWords(g, sfb, w, Size(b, g, sfb), PerBlock(b, g, sec.cb));
        s := s + t;
      }
      i := i + 1;
    }
  }

  /** The innermost loop, which ends early at the end of the band. */
  method VisitWords(g: nat, sfb: nat, w: nat, size: int, n: nat) returns (s: seq<Place>)
    ensures s == WordList(g, sfb, w * n, size, n)
  {
    s := [];
    var cws := 0;
    while cws < n && cws + w * n < size
      invariant 0 <= cws <= n && s == WordList(g, sfb, w * n, size, cws)
    {
      s := s + [Place(g, sfb, cws + w * n)];
      cws := cws + 1;
    }
    WordsEnd(g, sfb, w * n, size, cws, n);
  }

  lemma {:induction false} WordsEnd(g: nat, sfb: nat, start: nat, size: int, j: nat, k: nat)
    requires j <= k && (j == k || start + j >= size)
    ensures WordList(g, sfb, start, size, j) == WordList(g, sfb, start, size, k)
  {
    if j < k { WordsEnd(g, sfb, start, size, j, k - 1); }
  }

  /** The loop over blocks of four lines. */
  method VisitBlocks(b: Bands, thisCb: nat, sfb: nat) returns (s: seq<Place>)
    requires sfb < |b.widths| && forall g | 0 <= g < |b.groups| :: |b.groups[g].offsets| > |b.widths|
    ensures s == BlockList(b, thisCb, sfb, Blocks(b.widths[sfb]))
  {
    hide GroupList;
    s := [];
    var w := 0;
    while 4 * w < b.widths[sfb]
      invariant 0 <= w <= Blocks(b.widths[sfb]) && s == BlockList(b, thisCb, sfb, w)
    {
      var t := VisitGroups(b, thisCb, sfb, w);
      s := s + t;
      w := w + 1;
    }
  }

  /** The loops over codebooks and bands. */
  method PreSort(b: Bands, table: seq<nat>) returns (s: seq<Place>)
    requires forall g | 0 <= g < |b.groups| :: |b.groups[g].offsets| > |b.widths|
    ensures s == SortList(b, table, |table|)
  {
    hide BlockList, Blocks;
    s := [];
    var sortloop := 0;
    while sortloop < |table|
      invariant 0 <= sortloop <= |table| && s == SortList(b, table, sortloop)
    {
      var thisCb, sfb := table[sortloop], 0;
      ghost var before := s;
      while sfb < |b.widths|
        invariant 0 <= sfb <= |b.widths| && s == before + BandList(b, thisCb, sfb)
      {
        var t := VisitBlocks(b, thisCb, sfb);
        s := s + t;
        sfb := sfb + 1;
      }
      sortloop := sortloop + 1;
    }
  }

  /* ---------- Every codeword once ---------- */

  /** The codebook of a band, from the first `i` sections; -1 if none covers it. */
  function CbUpTo(sections: seq<Section>, sfb: nat, i: nat): int
    requires i <= |sections|
  {
    if i == 0 then -1 else if Covers(sections[i - 1], sfb) then sections[i - 1].cb else CbUpTo(sections, sfb, i - 1)
  }

  function CbOf(b: Bands, g: nat, sfb: nat): int
    requires g < |b.groups|
  {
    CbUpTo(b.groups[g].sections, sfb, |b.groups[g].sections|)
  }

  function Num(p: bool): nat { if p then 1 else 0 }

  lemma {:induction false} WordOnce(g: nat, sfb: nat, start: nat, size: int, k: nat, p: Place)
    ensures multiset(WordList(g, sfb, start, size, k))[p]
         == Num(p.g == g && p.sfb == sfb && start <= p.q < start + k && p.q < size)
  {
    if k > 0 { WordOnce(g, sfb, start, size, k - 1, p); }
  }

  /** Codeword `q` lies in block `w` of its band. */
  predicate InBlock(b: Bands, g: nat, sfb: nat, cb: int, w: nat, q: nat)
    requires g < |b.groups| && sfb + 1 < |b.groups[g].offsets|
  {
    var n := PerBlock(b, g, cb);
    w * n <= q < w * n + n && q < Size(b, g, sfb)
  }

  lemma {:induction false} NotCovered(sections: seq<Section>, sfb: nat, i: nat)
    requires i < |sections| && Disjoint(sections) && Covers(sections[i], sfb)
    ensures forall j | 0 <= j <= i :: CbUpTo(sections, sfb, j) == -1
  {
    var j := 0;
    while j < i
      invariant 0 <= j <= i && forall m | 0 <= m <= j :: CbUpTo(sections, sfb, m) == -1
    {
      assert !Covers(sections[j], sfb);
      j := j + 1;
    }
  }

  lemma {:induction false} SectionOnce(b: Bands, thisCb: nat, sfb: nat, w: nat, g: nat, i: nat, p: Place)
    requires Regular(b) && g < |b.groups| && sfb < |b.widths| && i <= |b.groups[g].sections|
    ensures var cb := CbUpTo(b.groups[g].sections, sfb, i);
            multiset(SectionList(b, thisCb, sfb, w, g, i))[p]
              == Num(p.g == g && p.sfb == sfb && IsGoodCb(thisCb, cb) && InBlock(b, g, sfb, cb, w, p.q))
  {
    hide InBlock, IsGoodCb, SectionWords;
    NoGoodCb(thisCb);
    if i > 0 {
      SectionOnce(b, thisCb, sfb, w, g, i - 1, p);
      var sec := b.groups[g].sections[i - 1];
      WordsOnce(b, thisCb, sfb, w, g, sec, p);
      if Covers(sec, sfb) { NotCovered(b.groups[g].sections, sfb, i - 1); }
    }
  }

  lemma NoGoodCb(thisCb: nat)
    ensures !IsGoodCb(thisCb, -1)
  {}

  lemma WordsOnce(b: Bands, thisCb: nat, sfb: nat, w: nat, g: nat, sec: Section, p: Place)
    requires g < |b.groups| && sfb + 1 < |b.groups[g].offsets|
    ensures multiset(SectionWords(b, thisCb, sfb, w, g, sec))[p]
         == Num(p.g == g && p.sfb == sfb && Covers(sec, sfb) && IsGoodCb(thisCb, sec.cb)
             && InBlock(b, g, sfb, sec.cb, w, p.q))
  {
    hide PerBlock, Size, WordList, IsGoodCb;
    var n := PerBlock(b, g, sec.cb);
    WordOnce(g, sfb, w * n, Size(b, g, sfb), n, p);
  }

  lemma {:induction false} GroupOnce(b: Bands, thisCb: nat, sfb: nat, w: nat, k: nat, p: Place)
    requires Regular(b) && sfb < |b.widths| && k <= |b.groups|
    ensures multiset(GroupList(b, thisCb, sfb, w, k))[p]
         == Num(p.g < k && p.sfb == sfb && IsGoodCb(thisCb, CbOf(b, p.g, sfb))
             && InBlock(b, p.g, sfb, CbOf(b, p.g, sfb), w, p.q))
  {
    hide SectionList, InBlock, IsGoodCb;
    if k > 0 {
      GroupOnce(b, thisCb, sfb, w, k - 1, p);
      SectionOnce(b, thisCb, sfb, w, k - 1, |b.groups[k - 1].sections|, p);
    }
  }

  /** Codeword `q` lies in the first `k` blocks. */
  predicate InFirst(b: Bands, g: nat, sfb: nat, k: nat, q: nat)
    requires g < |b.groups| && sfb + 1 < |b.groups[g].offsets|
  {
    q < k * PerBlock(b, g, CbOf(b, g, sfb)) && q < Size(b, g, sfb)
  }

  lemma OneMoreBlock(b: Bands, g: nat, sfb: nat, k: nat, q: nat)
    requires g < |b.groups| && sfb + 1 < |b.groups[g].offsets|
    ensures Num(InFirst(b, g, sfb, k + 1, q))
         == Num(InFirst(b, g, sfb, k, q)) + Num(InBlock(b, g, sfb, CbOf(b, g, sfb), k, q))
  {
    hide PerBlock, Size, CbOf;
    assert (k + 1) * PerBlock(b, g, CbOf(b, g, sfb))
        == k * PerBlock(b, g, CbOf(b, g, sfb)) + PerBlock(b, g, CbOf(b, g, sfb));
  }

  lemma {:induction false} BlockOnce(b: Bands, thisCb: nat, sfb: nat, k: nat, p: Place)
    requires Regular(b) && sfb < |b.widths|
    ensures multiset(BlockList(b, thisCb, sfb, k))[p]
         == Num(p.g < |b.groups| && p.sfb == sfb && IsGoodCb(thisCb, CbOf(b, p.g, sfb)) && InFirst(b, p.g, sfb, k, p.q))
  {
    hide GroupList, InBlock, IsGoodCb, CbOf;
    if k > 0 {
      hide InFirst;
      BlockOnce(b, thisCb, sfb, k - 1, p);
      GroupOnce(b, thisCb, sfb, k - 1, |b.groups|, p);
      if p.g < |b.groups| { OneMoreBlock(b, p.g, sfb, k - 1, p.q); }
    }
  }

  /** The codewords there are: as many in each band as its blocks hold. */
  predicate IsCodeword(b: Bands, p: Place)
    requires forall g | 0 <= g < |b.groups| :: |b.groups[g].offsets| > |b.widths|
  {
    p.g < |b.groups| && p.sfb < |b.widths| && InFirst(b, p.g, p.sfb, Blocks(b.widths[p.sfb]), p.q)
  }

  lemma CodewordInside(b: Bands, p: Place)
    requires Regular(b)
    ensures IsCodeword(b, p) ==> p.g < |b.groups| && p.sfb < |b.widths|
  {}

  lemma {:induction false} BandOnce(b: Bands, thisCb: nat, k: nat, p: Place)
    requires Regular(b) && k <= |b.widths|
    ensures multiset(BandList(b, thisCb, k))[p]
         == Num(p.sfb < k && IsCodeword(b, p) && IsGoodCb(thisCb, CbOf(b, p.g, p.sfb)))
  {
    hide BlockList, InFirst, IsGoodCb, CbOf, Blocks;
    if k > 0 {
      BandOnce(b, thisCb, k - 1, p);
      BlockOnce(b, thisCb, k - 1, Blocks(b.widths[k - 1]), p);
    }
  }

  /** How many of the first `k` passes take up codebook `cb`. */
  function Passes(table: seq<nat>, k: nat, cb: int): nat
    requires k <= |table|
  {
    if k == 0 then 0 else Passes(table, k - 1, cb) + Num(IsGoodCb(table[k - 1], cb))
  }

  lemma {:induction false} SortOnce(b: Bands, table: seq<nat>, k: nat, p: Place)
    requires Regular(b) && k <= |table|
    ensures multiset(SortList(b, table, k))[p] == if IsCodeword(b, p) then Passes(table, k, CbOf(b, p.g, p.sfb)) else 0
  {
    hide BandList, IsCodeword, IsGoodCb, CbOf;
    if k > 0 {
      SortOnce(b, table, k - 1, p);
      BandOnce(b, table[k - 1], |b.widths|, p);
      CodewordInside(b, p);
    }
  }

  /** The codebooks with spectral data that a table takes up. */
  predicate Spectral(table: seq<nat>, cb: int) { 1 <= cb <= 11 || (table == PRE_SORT_ER && 16 <= cb <= 31) }

  lemma PassesStd(cb: int)
    ensures Passes(PRE_SORT_STD, 6, cb) == Num(1 <= cb <= 11)
  {
    var t := PRE_SORT_STD;
    assert Passes(t, 1, cb) == Num(cb == 11);
    assert Passes(t, 2, cb) == Num(9 <= cb <= 11);
    assert Passes(t, 3, cb) == Num(7 <= cb <= 11);
    assert Passes(t, 4, cb) == Num(5 <= cb <= 11);
    assert Passes(t, 5, cb) == Num(3 <= cb <= 11);
  }

  /** The passes for the virtual codebooks, from 31 down to 16. */
  lemma VirtualPass(k: nat)
    requires 2 <= k <= 17
    ensures PRE_SORT_ER[k - 1] == 33 - k
  {
    if k <= 6 {
      assert k == 2 || k == 3 || k == 4 || k == 5 || k == 6;
    } else if k <= 11 {
      assert k == 7 || k == 8 || k == 9 || k == 10 || k == 11;
    } else {
      assert k == 12 || k == 13 || k == 14 || k == 15 || k == 16 || k == 17;
    }
  }

  lemma {:induction false} VirtualPasses(k: nat, cb: int)
    requires 1 <= k <= 17
    ensures Passes(PRE_SORT_ER, k, cb) == Num(cb == 11 || 33 - k <= cb <= 31)
  {
    if k > 1 {
      VirtualPasses(k - 1, cb);
      VirtualPass(k);
    } else {
      assert Passes(PRE_SORT_ER, 0, cb) == 0;
    }
  }

  lemma PassesEr(cb: int)
    ensures Passes(PRE_SORT_ER, 22, cb) == Num(1 <= cb <= 11 || 16 <= cb <= 31)
  {
    var t := PRE_SORT_ER;
    VirtualPasses(17, cb);
    assert Passes(t, 18, cb) == Num(9 <= cb <= 11 || 16 <= cb <= 31);
    assert Passes(t, 19, cb) == Num(7 <= cb <= 11 || 16 <= cb <= 31);
    assert Passes(t, 20, cb) == Num(5 <= cb <= 11 || 16 <= cb <= 31);
    assert Passes(t, 21, cb) == Num(3 <= cb <= 11 || 16 <= cb <= 31);
  }

  lemma TablePasses(table: seq<nat>, cb: int)
    requires table == PRE_SORT_STD || table == PRE_SORT_ER
    ensures Passes(table, |table|, cb) == Num(Spectral(table, cb))
  {
    hide Passes;
    if table == PRE_SORT_STD { PassesStd(cb); } else { PassesEr(cb); }
  }

  /** Each codeword of a spectral codebook is visited exactly once, and nothing else is visited. */
  lemma VisitedOnce(b: Bands, table: seq<nat>, p: Place)
    requires Regular(b) && (table == PRE_SORT_STD || table == PRE_SORT_ER)
    ensures multiset(SortList(b, table, |table|))[p] == Num(IsCodeword(b, p) && Spectral(table, CbOf(b, p.g, p.sfb)))
  {
    hide IsCodeword, CbOf, Passes, Spectral, SortList;
    SortOnce(b, table, |table|, p);
    if p.g < |b.groups| { TablePasses(table, CbOf(b, p.g, p.sfb)); }
    CodewordInside(b, p);
  }

  /* ---------- Every spectral line once ---------- */

  /** The first spectral line of a codeword. */
  function FirstLine(b: Bands, p: Place): nat
    requires p.g < |b.groups| && p.sfb < |b.groups[p.g].offsets|
  {
    b.groups[p.g].base + b.groups[p.g].offsets[p.sfb] + Inc(CbOf(b, p.g, p.sfb)) * p.q
  }

  /**
    In a band that is a multiple of four lines wide, line `l` belongs to
    codeword `l / Inc`, and that is one of the band.
   */
  lemma LineOnce(b: Bands, g: nat, sfb: nat, l: nat, q: nat)
    requires Regular(b) && g < |b.groups| && sfb < |b.widths| && b.widths[sfb] > 0 && b.widths[sfb] % 4 == 0
    requires Size(b, g, sfb) == b.widths[sfb] * b.groups[g].windows && l < Size(b, g, sfb)
    ensures var p, inc := Place(g, sfb, q), Inc(CbOf(b, g, sfb));
            var start := b.groups[g].base + b.groups[g].offsets[sfb];
            IsCodeword(b, p) && FirstLine(b, p) <= start + l < FirstLine(b, p) + inc <==> q == l / inc
  {
    hide CbOf, Size;
    var n, k := PerBlock(b, g, CbOf(b, g, sfb)), Blocks(b.widths[sfb]);
    Holds(b.widths[sfb], b.groups[g].windows, Inc(CbOf(b, g, sfb)), k, n);
    assert Inc(CbOf(b, g, sfb)) * (k * n) == Size(b, g, sfb);
    LineOf(l, q, Inc(CbOf(b, g, sfb)), k * n);
  }

  lemma Holds(width: nat, windows: nat, inc: nat, k: nat, n: nat)
    requires (inc == 2 || inc == 4) && width % 4 == 0 && k == (width + 3) / 4 && n == 4 * windows / inc
    ensures inc * (k * n) == width * windows
  {
    assert width == 4 * k;
    if inc == 2 {
      assert n == 2 * windows;
      assert 2 * (k * (2 * windows)) == 4 * k * windows;
    } else {
      assert n == windows;
      assert 4 * (k * windows) == 4 * k * windows;
    }
  }

  lemma LineOf(l: nat, q: nat, inc: nat, n: nat)
    requires (inc == 2 || inc == 4) && l < inc * n
    ensures inc * q <= l < inc * q + inc <==> q == l / inc
    ensures l / inc < n
  {}

  /* ---------- What the first step makes of it ---------- */

  /** `segmentWidth`. */
  function SegmentWidth(cb: nat, longest: nat): nat
    requires cb < 32
  {
    if MAX_CW_LEN[cb] < longest then MAX_CW_LEN[cb] else longest
  }

  /** The table for the frame, with or without virtual codebooks. */
  function TableFor(er: bool): seq<nat> { if er then PRE_SORT_ER else PRE_SORT_STD }

  /** A codeword with its book and segment width. */
  function VisitOf(b: Bands, p: Place, books: seq<Book>, longest: nat): Visit
    requires |books| == 32
  {
    var cb := if p.g < |b.groups| then CbOf(b, p.g, p.sfb) else 0;
    if 0 <= cb < 32 then Visit(books[cb], SegmentWidth(cb, longest)) else Visit(books[0], 0)
  }

  lemma VisitWidth(b: Bands, er: bool, p: Place, books: seq<Book>, longest: nat)
    requires Regular(b) && |books| == 32 && longest > 0 && p in SortList(b, TableFor(er), |TableFor(er)|)
    ensures IsCodeword(b, p) && Spectral(TableFor(er), CbOf(b, p.g, p.sfb))
    ensures 1 <= VisitOf(b, p, books, longest).width <= longest && VisitOf(b, p, books, longest).width <= 63
    ensures VisitOf(b, p, books, longest).book in books
  {
    hide SortList, IsCodeword, CbOf, SegmentWidth;
    VisitedOnce(b, TableFor(er), p);
    CodewordInside(b, p);
    assert multiset(SortList(b, TableFor(er), |TableFor(er)|))[p] > 0;
    WidthInside(CbOf(b, p.g, p.sfb), longest);
  }

  lemma WidthInside(cb: nat, longest: nat)
    requires (1 <= cb <= 11 || 16 <= cb <= 31) && longest > 0
    ensures 1 <= SegmentWidth(cb, longest) <= longest && SegmentWidth(cb, longest) <= 63
  {
    if cb <= 4 {
    } else if cb <= 8 {
    } else if cb <= 11 {
    } else if cb <= 19 {
    } else if cb <= 23 {
    } else if cb <= 27 {
    }
  }

  /**
    `reordered_spectral_data` with its loops over the codewords: what comes
    back are the values of every codeword of the frame, in the order visited.
   */
  method DecodeFrame(b: Bands, er: bool, books: seq<Book>, size: nat, longest: nat, r: Reader, ghost data: seq<Byte>)
    returns (o: Outcome, places: seq<Place>, values: seq<seq<int>>, ghost segments: nat)
    requires r.Reads(data) && !r.error && Regular(b) && |books| == 32 && forall k | 0 <= k < 32 :: WellFormed(books[k])
    modifies r
    ensures r.Reads(data) && !r.error && old(r.Pos()) >= 0
    ensures places == SortList(b, TableFor(er), |TableFor(er)|)
    ensures size > 0 ==> (o == Bad <==> longest == 0 || size < longest || places == [])
    ensures size > 0 && o != Bad ==>
              var v := seq(|places|, k requires 0 <= k < |places| => VisitOf(b, places[k], books, longest));
              && 0 < segments <= |v| && Fitting(v, size, segments)
              && (o == Good <==> Followed(data, old(r.Pos()), v, size, segments))
              && (o == Good ==> ValuesAre(data, old(r.Pos()), v, size, segments, values))
  {
    hide Reader.Reads, WellFormed, SortList, Fitting, Followed, ValuesAre, VisitOf;
    r.PosNatural(data);
    places := PreSort(b, TableFor(er));
    values, segments := [], 0;
    if size == 0 { return Good, places, values, segments; }
    if longest == 0 || size < longest { return Bad, places, values, segments; }
    var v := seq(|places|, k requires 0 <= k < |places| => VisitOf(b, places[k], books, longest));
    forall k | 0 <= k < |v|
      ensures 1 <= v[k].width <= longest && v[k].width <= 63 && WellFormed(v[k].book)
    {
      VisitWidth(b, er, places[k], books, longest);
    }
    o, values, segments := ReorderedSpectralData(v, size, longest, r, data);
  }
}
