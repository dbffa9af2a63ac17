/**
  Which codeword `reordered_spectral_data` visits first (libfaad/hcr.c:266-347):
  by the pass that takes up its codebook, by scalefactor band, by block of
  four lines, by window group, and by its number in the band.
 */
module HcrOrder {
  import opened Arithmetic
  import opened HcrSort

  /** The block of four lines that holds a codeword. */
  function BlockOf(b: Bands, p: Place): nat
    requires p.g < |b.groups| && b.groups[p.g].windows > 0
  {
    Times(p.q, PerBlock(b, p.g, CbOf(b, p.g, p.sfb)))
  }

  /** How many times `n` goes into `q`. */
  function Times(q: nat, n: nat): nat { if n == 0 then 0 else q / n }

  /** The order within one pass. */
  predicate Inner(b: Bands, p: Place, q: Place) {
    && p.g < |b.groups| && q.g < |b.groups| && b.groups[p.g].windows > 0 && b.groups[q.g].windows > 0
    && (p.sfb < q.sfb || (p.sfb == q.sfb
          && (BlockOf(b, p) < BlockOf(b, q) || (BlockOf(b, p) == BlockOf(b, q)
                && (p.g < q.g || (p.g == q.g && p.q < q.q))))))
  }

  ghost predicate Ordered(b: Bands, s: seq<Place>) {
    forall i, j | 0 <= i < j < |s| :: Inner(b, s[i], s[j])
  }

  lemma Joined(b: Bands, s: seq<Place>, t: seq<Place>)
    requires Ordered(b, s) && Ordered(b, t) && forall p, q | p in s && q in t :: Inner(b, p, q)
    ensures Ordered(b, s + t)
  {
    hide Inner;
  }

  lemma Member(s: seq<Place>, p: Place)
    ensures p in s <==> multiset(s)[p] > 0
  {}

  lemma BlockIs(b: Bands, p: Place, w: nat)
    requires p.g < |b.groups| && b.groups[p.g].windows > 0 && p.sfb + 1 < |b.groups[p.g].offsets|
    requires InBlock(b, p.g, p.sfb, CbOf(b, p.g, p.sfb), w, p.q)
    ensures BlockOf(b, p) == w
  {
    hide CbOf, Size, Times;
    var n := PerBlock(b, p.g, CbOf(b, p.g, p.sfb));
    Quotient(p.q, w, n);
  }

  lemma Quotient(q: nat, w: nat, n: nat)
    requires n > 0 && w * n <= q < w * n + n
    ensures Times(q, n) == w
  {
    DivMod(q - w * n, n, w);
  }

  lemma WithinBlock(b: Bands, g: nat, sfb: nat, q: nat, r: nat)
    requires g < |b.groups| && b.groups[g].windows > 0 && q < r
    requires BlockOf(b, Place(g, sfb, q)) == BlockOf(b, Place(g, sfb, r))
    ensures Inner(b, Place(g, sfb, q), Place(g, sfb, r))
  {
    hide BlockOf;
  }

  lemma WordMember(g: nat, sfb: nat, start: nat, size: int, k: nat, p: Place)
    requires p in WordList(g, sfb, start, size, k)
    ensures p.g == g && p.sfb == sfb && start <= p.q < start + k
  {
    hide WordList;
    WordOnce(g, sfb, start, size, k, p);
    Member(WordList(g, sfb, start, size, k), p);
  }

  lemma {:induction false} WordsOrdered(b: Bands, g: nat, sfb: nat, start: nat, size: int, k: nat, w: nat)
    requires g < |b.groups| && b.groups[g].windows > 0
    requires forall q: nat | start <= q < start + k :: BlockOf(b, Place(g, sfb, q)) == w
    ensures Ordered(b, WordList(g, sfb, start, size, k))
  {
    hide BlockOf, Inner, Ordered;
    NothingOrdered(b);
    if k > 0 {
      WordsOrdered(b, g, sfb, start, size, k - 1, w);
      var s := WordList(g, sfb, start, size, k - 1);
      if start + k - 1 < size {
        LastWord(b, g, sfb, start, size, k, w);
        assert WordList(g, sfb, start, size, k) == s + [Place(g, sfb, start + (k - 1))];
      } else {
        assert WordList(g, sfb, start, size, k) == s + [] == s;
      }
    }
  }

  lemma LastWord(b: Bands, g: nat, sfb: nat, start: nat, size: int, k: nat, w: nat)
    requires k > 0 && g < |b.groups| && b.groups[g].windows > 0
    requires forall q: nat | start <= q < start + k :: BlockOf(b, Place(g, sfb, q)) == w
    requires Ordered(b, WordList(g, sfb, start, size, k - 1))
    ensures Ordered(b, WordList(g, sfb, start, size, k - 1) + [Place(g, sfb, start + (k - 1))])
  {
    var s, last := WordList(g, sfb, start, size, k - 1), Place(g, sfb, start + (k - 1));
    hide BlockOf, Inner, WordList;
    forall p | p in s
      ensures Inner(b, p, last)
    {
      WordMember(g, sfb, start, size, k - 1, p);
      assert p == Place(g, sfb, p.q);
      WithinBlock(b, g, sfb, p.q, start + (k - 1));
    }
    Joined(b, s, [last]);
  }

  lemma {:induction false} SectionsOrdered(b: Bands, thisCb: nat, sfb: nat, w: nat, g: nat, i: nat)
    requires Regular(b) && sfb < |b.widths| && g < |b.groups| && i <= |b.groups[g].sections|
    ensures Ordered(b, SectionList(b, thisCb, sfb, w, g, i))
  {
    hide WordList, BlockOf, IsGoodCb, Inner;
    if i > 0 {
      var sec := b.groups[g].sections[i - 1];
      var s := SectionList(b, thisCb, sfb, w, g, i - 1);
      SectionsOrdered(b, thisCb, sfb, w, g, i - 1);
      if Covers(sec, sfb) && IsGoodCb(thisCb, sec.cb) {
        NoneBefore(b, thisCb, sfb, w, g, i);
        OneSection(b, g, sfb, i - 1);
        var n := PerBlock(b, g, sec.cb);
        forall q: nat | w * n <= q < w * n + n
          ensures BlockOf(b, Place(g, sfb, q)) == w
        {
          SameBlock(b, Place(g, sfb, q), w);
        }
        WordsOrdered(b, g, sfb, w * n, Size(b, g, sfb), n, w);
        assert s == [];
      }
    }
  }

  lemma SameBlock(b: Bands, p: Place, w: nat)
    requires p.g < |b.groups| && b.groups[p.g].windows > 0
    requires var n := PerBlock(b, p.g, CbOf(b, p.g, p.sfb)); w * n <= p.q < w * n + n
    ensures BlockOf(b, p) == w
  {
    hide CbOf, Times;
    Quotient(p.q, w, PerBlock(b, p.g, CbOf(b, p.g, p.sfb)));
  }

  /** The section that covers a band gives its codebook. */
  lemma OneSection(b: Bands, g: nat, sfb: nat, i: nat)
    requires Regular(b) && g < |b.groups| && i < |b.groups[g].sections| && Covers(b.groups[g].sections[i], sfb)
    ensures CbOf(b, g, sfb) == b.groups[g].sections[i].cb
  {
    Later(b.groups[g].sections, sfb, i, |b.groups[g].sections|);
  }

  lemma {:induction false} Later(sections: seq<Section>, sfb: nat, i: nat, k: nat)
    requires Disjoint(sections) && i < k <= |sections| && Covers(sections[i], sfb)
    ensures CbUpTo(sections, sfb, k) == sections[i].cb
  {
    if i < k - 1 {
      Later(sections, sfb, i, k - 1);
      assert !Covers(sections[k - 1], sfb);
    }
  }

  lemma NoneBefore(b: Bands, thisCb: nat, sfb: nat, w: nat, g: nat, i: nat)
    requires Regular(b) && sfb < |b.widths| && g < |b.groups| && 0 < i <= |b.groups[g].sections|
    requires Covers(b.groups[g].sections[i - 1], sfb)
    ensures SectionList(b, thisCb, sfb, w, g, i - 1) == []
  {
    hide SectionList, IsGoodCb, InBlock, CbUpTo;
    var s := SectionList(b, thisCb, sfb, w, g, i - 1);
    NotCovered(b.groups[g].sections, sfb, i - 1);
    NoGoodCb(thisCb);
    if s != [] {
      SectionOnce(b, thisCb, sfb, w, g, i - 1, s[0]);
      Member(s, s[0]);
    }
  }

  /** The codewords of one block of one band. */
  lemma GroupMember(b: Bands, thisCb: nat, sfb: nat, w: nat, k: nat, p: Place)
    requires Regular(b) && sfb < |b.widths| && k <= |b.groups| && p in GroupList(b, thisCb, sfb, w, k)
    ensures p.g < k && p.sfb == sfb && BlockOf(b, p) == w
  {
    hide GroupList, IsGoodCb, InBlock, BlockOf, CbOf;
    GroupOnce(b, thisCb, sfb, w, k, p);
    Member(GroupList(b, thisCb, sfb, w, k), p);
    BlockIs(b, p, w);
  }

  lemma {:induction false} GroupsOrdered(b: Bands, thisCb: nat, sfb: nat, w: nat, k: nat)
    requires Regular(b) && sfb < |b.widths| && k <= |b.groups|
    ensures Ordered(b, GroupList(b, thisCb, sfb, w, k))
  {
    hide SectionList, BlockOf, Ordered;
    if k > 0 {
      var s, t := GroupList(b, thisCb, sfb, w, k - 1),
          SectionList(b, thisCb, sfb, w, k - 1, |b.groups[k - 1].sections|);
      GroupsOrdered(b, thisCb, sfb, w, k - 1);
      SectionsOrdered(b, thisCb, sfb, w, k - 1, |b.groups[k - 1].sections|);
      forall p, q | p in s && q in t
        ensures Inner(b, p, q)
      {
        GroupMember(b, thisCb, sfb, w, k - 1, p);
        assert q in GroupList(b, thisCb, sfb, w, k);
        GroupMember(b, thisCb, sfb, w, k, q);
        SectionMember(b, thisCb, sfb, w, k - 1, q);
      }
      Joined(b, s, t);
    } else {
      NothingOrdered(b);
    }
  }

  lemma NothingOrdered(b: Bands)
    ensures Ordered(b, [])
  {}

  lemma SectionMember(b: Bands, thisCb: nat, sfb: nat, w: nat, g: nat, p: Place)
    requires Regular(b) && sfb < |b.widths| && g < |b.groups|
    requires p in SectionList(b, thisCb, sfb, w, g, |b.groups[g].sections|)
    ensures p.g == g
  {
    hide SectionList, InBlock, IsGoodCb;
    SectionOnce(b, thisCb, sfb, w, g, |b.groups[g].sections|, p);
    Member(SectionList(b, thisCb, sfb, w, g, |b.groups[g].sections|), p);
  }

  /** The codewords of the first `k` blocks of one band. */
  lemma {:induction false} BlockMember(b: Bands, thisCb: nat, sfb: nat, k: nat, p: Place)
    requires Regular(b) && sfb < |b.widths| && p in BlockList(b, thisCb, sfb, k)
    ensures p.g < |b.groups| && p.sfb == sfb && BlockOf(b, p) < k
  {
    hide GroupList, BlockOf;
    if p in BlockList(b, thisCb, sfb, k - 1) {
      BlockMember(b, thisCb, sfb, k - 1, p);
    } else {
      GroupMember(b, thisCb, sfb, k - 1, |b.groups|, p);
    }
  }

  lemma {:induction false} BlocksOrdered(b: Bands, thisCb: nat, sfb: nat, k: nat)
    requires Regular(b) && sfb < |b.widths|
    ensures Ordered(b, BlockList(b, thisCb, sfb, k))
  {
    hide GroupList, BlockOf, Ordered;
    if k > 0 {
      var s, t := BlockList(b, thisCb, sfb, k - 1), GroupList(b, thisCb, sfb, k - 1, |b.groups|);
      BlocksOrdered(b, thisCb, sfb, k - 1);
      GroupsOrdered(b, thisCb, sfb, k - 1, |b.groups|);
      forall p, q | p in s && q in t
        ensures Inner(b, p, q)
      {
        BlockMember(b, thisCb, sfb, k - 1, p);
        GroupMember(b, thisCb, sfb, k - 1, |b.groups|, q);
      }
      Joined(b, s, t);
    } else {
      NothingOrdered(b);
    }
  }

  lemma {:induction false} BandMember(b: Bands, thisCb: nat, k: nat, p: Place)
    requires Regular(b) && k <= |b.widths| && p in BandList(b, thisCb, k)
    ensures p.g < |b.groups| && p.sfb < k
  {
    hide BlockList, Blocks;
    if p in BandList(b, thisCb, k - 1) {
      BandMember(b, thisCb, k - 1, p);
    } else {
      BlockMember(b, thisCb, k - 1, Blocks(b.widths[k - 1]), p);
    }
  }

  lemma {:induction false} BandsOrdered(b: Bands, thisCb: nat, k: nat)
    requires Regular(b) && k <= |b.widths|
    ensures Ordered(b, BandList(b, thisCb, k))
  {
    hide BlockList, Blocks, BlockOf, Ordered;
    if k > 0 {
      var n := Blocks(b.widths[k - 1]);
      var s, t := BandList(b, thisCb, k - 1), BlockList(b, thisCb, k - 1, n);
      BandsOrdered(b, thisCb, k - 1);
      BlocksOrdered(b, thisCb, k - 1, n);
      forall p, q | p in s && q in t
        ensures Inner(b, p, q)
      {
        BandMember(b, thisCb, k - 1, p);
        BlockMember(b, thisCb, k - 1, n, q);
      }
      Joined(b, s, t);
    } else {
      NothingOrdered(b);
    }
  }

  /* ---------- Over all passes ---------- */

  /** The first pass that takes up a codebook. */
  function PassOf(table: seq<nat>, cb: int): nat {
    if table == [] || IsGoodCb(table[0], cb) then 0 else 1 + PassOf(table[1..], cb)
  }

  /** Which of two codewords comes first. */
  predicate Precedes(b: Bands, table: seq<nat>, p: Place, q: Place) {
    && p.g < |b.groups| && q.g < |b.groups|
    && var m, n := PassOf(table, CbOf(b, p.g, p.sfb)), PassOf(table, CbOf(b, q.g, q.sfb));
       m < n || (m == n && Inner(b, p, q))
  }

  lemma {:induction false} PassFound(table: seq<nat>, k: nat, cb: int)
    requires k < |table| && IsGoodCb(table[k], cb) && forall i | 0 <= i < k :: !IsGoodCb(table[i], cb)
    ensures PassOf(table, cb) == k
  {
    if k > 0 { PassFound(table[1..], k - 1, cb); }
  }

  lemma {:induction false} PassesGrow(table: seq<nat>, i: nat, k: nat, cb: int)
    requires i <= k <= |table|
    ensures Passes(table, i, cb) <= Passes(table, k, cb)
  {
    hide IsGoodCb;
    if i < k { PassesGrow(table, i, k - 1, cb); }
  }

  /** The pass that takes a codeword up is the only one. */
  lemma OnlyPass(table: seq<nat>, k: nat, cb: int)
    requires (table == PRE_SORT_STD || table == PRE_SORT_ER) && k < |table| && IsGoodCb(table[k], cb)
    ensures PassOf(table, cb) == k
  {
    hide IsGoodCb, Passes;
    TablePasses(table, cb);
    forall i | 0 <= i < k
      ensures !IsGoodCb(table[i], cb)
    {
      PassesStep(table, i, cb);
      PassesStep(table, k, cb);
      PassesGrow(table, i + 1, k, cb);
      PassesGrow(table, k + 1, |table|, cb);
    }
    PassFound(table, k, cb);
  }

  lemma PassesStep(table: seq<nat>, i: nat, cb: int)
    requires i < |table|
    ensures Passes(table, i + 1, cb) == Passes(table, i, cb) + Num(IsGoodCb(table[i], cb))
  {
    hide IsGoodCb;
  }

  lemma BandPass(b: Bands, table: seq<nat>, k: nat, p: Place)
    requires Regular(b) && (table == PRE_SORT_STD || table == PRE_SORT_ER) && k < |table|
    requires p in BandList(b, table[k], |b.widths|)
    ensures p.g < |b.groups| && PassOf(table, CbOf(b, p.g, p.sfb)) == k
  {
    hide BandList, IsGoodCb, CbOf, PassOf, IsCodeword;
    BandOnce(b, table[k], |b.widths|, p);
    Member(BandList(b, table[k], |b.widths|), p);
    CodewordInside(b, p);
    OnlyPass(table, k, CbOf(b, p.g, p.sfb));
  }

  lemma {:induction false} SortMember(b: Bands, table: seq<nat>, k: nat, p: Place)
    requires Regular(b) && (table == PRE_SORT_STD || table == PRE_SORT_ER) && k <= |table|
    requires p in SortList(b, table, k)
    ensures p.g < |b.groups| && PassOf(table, CbOf(b, p.g, p.sfb)) < k
  {
    hide BandList, CbOf, PassOf;
    if p in SortList(b, table, k - 1) {
      SortMember(b, table, k - 1, p);
    } else {
      BandPass(b, table, k - 1, p);
    }
  }

  /** Of any two codewords the one that precedes the other is visited first. */
  lemma {:induction false} VisitOrder(b: Bands, table: seq<nat>, k: nat, i: nat, j: nat)
    requires Regular(b) && (table == PRE_SORT_STD || table == PRE_SORT_ER) && k <= |table|
    requires i < j < |SortList(b, table, k)|
    ensures Precedes(b, table, SortList(b, table, k)[i], SortList(b, table, k)[j])
    decreases k
  {
    hide BandList, CbOf, PassOf, Inner;
    var s, t := SortList(b, table, k - 1), BandList(b, table[k - 1], |b.widths|);
    assert SortList(b, table, k) == s + t;
    if j < |s| {
      VisitOrder(b, table, k - 1, i, j);
    } else {
      BandPass(b, table, k - 1, t[j - |s|]);
      if i < |s| {
        SortMember(b, table, k - 1, s[i]);
      } else {
        BandPass(b, table, k - 1, t[i - |s|]);
        BandsOrdered(b, table[k - 1], |b.widths|);
      }
    }
  }
}
