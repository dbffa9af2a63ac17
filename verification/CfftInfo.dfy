/** The interface of libfaad/cfft.c: `cffti`, `cfftf` and `cfftb` on a `cfft_info`. */
module CfftInfo {
  import opened Complexes
  import opened Dft
  import opened DftInverse
  import opened CfftButterflies
  import opened CfftPasses
  import opened CfftFactors
  import opened CfftDriver
  import opened CfftForward

  class Info {
    const n: nat
    const w: Complex
    const k: Consts
    const work: array<Complex>
    const tab: array<Complex>
    const ifac: array<nat>

    ghost function Fs(): seq<nat>
      reads ifac
      requires ifac.Length == 15 && ifac[1] <= 10
    {
      ifac[2..2 + ifac[1]]
    }

    ghost predicate Valid()
      reads tab, ifac
    {
      && n >= 2 && work.Length == tab.Length == n && work != tab && ifac.Length == 15 && ifac[1] <= 10
      && PrimitiveRoot(w, n) && UnitRoot(w, n, k)
      && Factors(Fs(), n) && Table(tab[..], w, Fs())
      && (FiveSmooth(n) ==> AllRadix(Fs()))
    }

    /** `cffti`, with `w` standing for cos and sin of 2 pi/n. */
    constructor (n: nat, w: Complex, k: Consts)
      requires 2 <= n <= 65535 && PrimitiveRoot(w, n) && UnitRoot(w, n, k)
      ensures Valid() && this.n == n && this.w == w && fresh(work) && fresh(tab) && fresh(ifac)
    {
      hide PrimitiveRoot, UnitRoot, Factors, Table, FiveSmooth;
      this.n, this.w, this.k := n, w, k;
      work := new Complex[n](_ => ZERO);
      tab := new Complex[n](_ => ZERO);
      ifac := new nat[15](_ => 0);
      new;
      Cffti1(n, tab, ifac, w);
      SmallFactors(Fs(), n);
      if FiveSmooth(n) {
        forall m | 0 <= m < |Fs()|
          ensures Fs()[m] <= 5
        {
          assert ifac[2 + m] <= 5;
        }
      }
    }

    /** `cfftf`: the forward DFT in place, unless five divides the length. */
    method Cfftf(c: array<Complex>)
      requires Valid() && c.Length == n && c != work && c != tab
      modifies c, work
      ensures Valid() && c[..] == Cfftf1Of(-1, w, old(c[..]), Fs())
      ensures FiveSmooth(n) && n % 5 != 0 ==> c[..] == Transform(old(c[..]), Conj(w))
    {
      hide PrimitiveRoot, UnitRoot, Factors, Table, FiveSmooth, Transform, Run;
      Cfftf1(-1, n, c, work, ifac[..], tab[..], k, w);
      ghost var fs := Fs();
      assert ifac[..][2..2 + ifac[1]] == fs;
      FactorsAtLeast2(fs, n);
      if FiveSmooth(n) && n % 5 != 0 {
        ForwardIff(w, fs, n);
      }
    }

    /** `cfftb`: the backward DFT in place. */
    method Cfftb(c: array<Complex>)
      requires Valid() && c.Length == n && c != work && c != tab
      modifies c, work
      ensures Valid() && c[..] == Cfftf1Of(1, w, old(c[..]), Fs())
      ensures FiveSmooth(n) ==> c[..] == Transform(old(c[..]), w)
    {
      hide PrimitiveRoot, UnitRoot, Factors, Table, FiveSmooth, Transform, Run;
      Cfftf1(1, n, c, work, ifac[..], tab[..], k, w);
      ghost var fs := Fs();
      assert ifac[..][2..2 + ifac[1]] == fs;
      FactorsAtLeast2(fs, n);
      if FiveSmooth(n) {
        PrimitiveReturns(w, n);
        BackwardCorrect(w, old(c[..]), fs);
      }
    }
  }

  /** Factors of at most five are radices the passes know. */
  lemma SmallFactors(fs: seq<nat>, n: nat)
    requires Factors(fs, n)
    ensures (forall m | 0 <= m < |fs| :: fs[m] <= 5) ==> AllRadix(fs)
  {}
}
