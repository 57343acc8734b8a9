/** The bidirectional scattering distribution function of a surface point: up
    to `MaxBxdfCount` lobes in a fixed array of optional slots, the local
    shading frame, and the selection, averaging and summing of lobes by flag
    that `sample_f`, `pdf` and `f` perform. */
module Bsdfs {
  import opened Common
  import opened Flags
  import opened Kernels
  import opened Bxdfs
  import BsdfHelpers

  const MaxBxdfCount: nat := 5

  /** The result of `Bsdf::sample_f`. */
  datatype BsdfSampleResult = BsdfSampleResult(wi: Vec3, pdf: real, f: Vec3, sampledFlags: BxdfTypes)

  function Up(): Vec3 { Vec3(0.0, 0.0, 1.0) }

  function ZeroSample(flags: BxdfTypes): BsdfSampleResult {
    BsdfSampleResult(Zero(), 0.0, Zero(), flags)
  }

  /** The geometric normal and the shading frame (tangent `ss`, bitangent `ts`,
      normal `shadingNormal`) a `Bsdf` keeps. */
  datatype Frame = Frame(geometryNormal: Vec3, shadingNormal: Vec3, ss: Vec3, ts: Vec3)
  {
    /** Local coordinates of `v`: its local `cos θ` is its cosine with the
        shading normal, and for an orthonormal frame the shading normal
        itself becomes the local z axis. */
    function WorldToLocal(v: Vec3): (r: Vec3)
      ensures BsdfHelpers.CosTheta(r) == Dot(v, shadingNormal)
      ensures Orthonormal() && v == shadingNormal ==> r == Up()
    {
      Vec3(Dot(v, ss), Dot(v, ts), Dot(v, shadingNormal))
    }

    /** World coordinates of the local `v`; for an orthonormal frame
        `WorldToLocal` undoes it. */
    function LocalToWorld(v: Vec3): (r: Vec3)
      ensures Orthonormal() ==> WorldToLocal(r) == v
    {
      DotLinear(ss, ts, shadingNormal, v, ss);
      DotLinear(ss, ts, shadingNormal, v, ts);
      DotLinear(ss, ts, shadingNormal, v, shadingNormal);
      Add(Add(Scale(ss, v.x), Scale(ts, v.y)), Scale(shadingNormal, v.z))
    }

    /** Whether `wo` and `wi` lie on the same side of the geometric surface. */
    predicate Reflects(woWorld: Vec3, wiWorld: Vec3) {
      Dot(wiWorld, geometryNormal) * Dot(woWorld, geometryNormal) > 0.0
    }

    /** The flag a lobe must contain to contribute to `f` for this pair. */
    function MustMatch(woWorld: Vec3, wiWorld: Vec3): BxdfTypes {
      if Reflects(woWorld, wiWorld) then Reflection else Transmission
    }

    predicate Orthonormal() {
      && Dot(ss, ss) == 1.0 && Dot(ts, ts) == 1.0 && Dot(shadingNormal, shadingNormal) == 1.0
      && Dot(ss, ts) == 0.0 && Dot(ss, shadingNormal) == 0.0 && Dot(ts, shadingNormal) == 0.0
    }
  }

  lemma DotLinear(s: Vec3, t: Vec3, n: Vec3, v: Vec3, e: Vec3)
    ensures Dot(Add(Add(Scale(s, v.x), Scale(t, v.y)), Scale(n, v.z)), e)
         == v.x * Dot(s, e) + v.y * Dot(t, e) + v.z * Dot(n, e)
  {
  }

  // -----------------------------------------------------------------------
  // Selection of lobes by flag

  /** The positions of the lobes a request for `flags` selects, ascending. */
  function MatchingIndices(lobes: seq<Bxdf>, flags: BxdfTypes): (r: seq<nat>)
    ensures forall j :: 0 <= j < |r| ==> r[j] < |lobes| && Matches(lobes[r[j]], flags)
    ensures forall i :: 0 <= i < |lobes| && Matches(lobes[i], flags) ==> i in r
    ensures forall j, j' :: 0 <= j < j' < |r| ==> r[j] < r[j']
    ensures |r| <= |lobes|
  {
    if lobes == [] then []
    else
      var init := MatchingIndices(lobes[..|lobes| - 1], flags);
      if Matches(lobes[|lobes| - 1], flags) then init + [|lobes| - 1] else init
  }

  /** The sum of `pdf(wo, wi)` over the selected lobes. */
  function SumMatchingPdf(lobes: seq<Bxdf>, flags: BxdfTypes, k: Kernels, wo: Vec3, wi: Vec3): real {
    if lobes == [] then 0.0
    else
      var last := lobes[|lobes| - 1];
      SumMatchingPdf(lobes[..|lobes| - 1], flags, k, wo, wi)
        + (if Matches(last, flags) then Pdf(last, k, wo, wi) else 0.0)
  }

  /** The arithmetic mean of the selected lobes' pdfs, 0 when none is selected. */
  function MeanMatchingPdf(lobes: seq<Bxdf>, flags: BxdfTypes, k: Kernels, wo: Vec3, wi: Vec3): real {
    var m := |MatchingIndices(lobes, flags)|;
    if m > 0 then SumMatchingPdf(lobes, flags, k, wo, wi) / (m as real) else 0.0
  }

  /** The sum of `pdf(wo, wi)` over the selected lobes other than the one at
      position `chosen`. */
  function OthersPdf(lobes: seq<Bxdf>, flags: BxdfTypes, chosen: nat, k: Kernels, wo: Vec3, wi: Vec3): real {
    if lobes == [] then 0.0
    else
      var i := |lobes| - 1;
      OthersPdf(lobes[..i], flags, chosen, k, wo, wi)
        + (if i != chosen && Matches(lobes[i], flags) then Pdf(lobes[i], k, wo, wi) else 0.0)
  }

  /** The same loop as written: it adds the CHOSEN lobe's pdf `p` once for every
      other selected lobe. */
  function OthersPdfAsWritten(lobes: seq<Bxdf>, flags: BxdfTypes, chosen: nat, p: real): real {
    if lobes == [] then 0.0
    else
      var i := |lobes| - 1;
      OthersPdfAsWritten(lobes[..i], flags, chosen, p)
        + (if i != chosen && Matches(lobes[i], flags) then p else 0.0)
  }

  /** The pdf `sample_f` reports for the direction sampled from lobe `chosen`
      with that lobe's own sampling pdf `p0`: the other selected lobes' pdfs
      are added, and the total is averaged over the selected lobes. */
  function SamplePdf(lobes: seq<Bxdf>, flags: BxdfTypes, chosen: nat, k: Kernels, wo: Vec3, wi: Vec3,
                     p0: real): real
    requires chosen < |lobes|
  {
    var m := |MatchingIndices(lobes, flags)|;
    var total := if !Contains(TypeFlags(lobes[chosen]), Specular) || m > 1
                 then p0 + OthersPdf(lobes, flags, chosen, k, wo, wi) else p0;
    if m > 1 then total / (m as real) else total
  }

  /** `SamplePdf` as the source writes it: the other lobes contribute the
      chosen lobe's pdf instead of their own. */
  function SamplePdfAsWritten(lobes: seq<Bxdf>, flags: BxdfTypes, chosen: nat, k: Kernels, wo: Vec3,
                              wi: Vec3, p0: real): real
    requires chosen < |lobes|
  {
    var m := |MatchingIndices(lobes, flags)|;
    var total := if !Contains(TypeFlags(lobes[chosen]), Specular) || m > 1
                 then p0 + OthersPdfAsWritten(lobes, flags, chosen, Pdf(lobes[chosen], k, wo, wi)) else p0;
    if m > 1 then total / (m as real) else total
  }

  /** The sum of `f(wo, wi)` over the selected lobes that contain `mustMatch`. */
  function SumF(lobes: seq<Bxdf>, flags: BxdfTypes, mustMatch: BxdfTypes, k: Kernels, wo: Vec3, wi: Vec3): Vec3 {
    if lobes == [] then Zero()
    else
      var last := lobes[|lobes| - 1];
      var rest := SumF(lobes[..|lobes| - 1], flags, mustMatch, k, wo, wi);
      if Matches(last, flags) && Contains(TypeFlags(last), mustMatch) then Add(rest, F(last, k, wo, wi)) else rest
  }

  /** `pdf(wo, wi)` in local coordinates: 0 for a grazing `wo`, else the mean
      of the selected lobes' pdfs. */
  function PdfOf(lobes: seq<Bxdf>, flags: BxdfTypes, k: Kernels, wo: Vec3, wi: Vec3): real {
    if wo.z == 0.0 then 0.0 else MeanMatchingPdf(lobes, flags, k, wo, wi)
  }

  /** What `sample_f` computes, stated on the lobes in slot order. `choice` is
      the position, within the selected lobes, of the one picked at random;
      `u` and `disk` are the random points handed to the lobe. */
  function SampleFOf(lobes: seq<Bxdf>, fr: Frame, k: Kernels, woWorld: Vec3, flags: BxdfTypes,
                     choice: nat, u: Point2, disk: Point2): BsdfSampleResult
    requires k.Valid() && forall i :: 0 <= i < |lobes| ==> WellFormed(lobes[i])
    requires MatchingIndices(lobes, flags) != [] ==> choice < |MatchingIndices(lobes, flags)|
  {
    var matching := MatchingIndices(lobes, flags);
    var wo := fr.WorldToLocal(woWorld);
    if matching == [] || wo.z == 0.0 then ZeroSample(NoFlags)
    else
      var chosen := matching[choice];
      var b := lobes[chosen];
      var s := SampleF(b, k, u, disk, wo);
      if s.pdf == 0.0 then ZeroSample(TypeFlags(b))
      else
        var wiWorld := fr.LocalToWorld(s.wi);
        var pdf := SamplePdfAsWritten(lobes, flags, chosen, k, wo, s.wi, s.pdf);
        var f := if Contains(TypeFlags(b), Specular) then s.f
                 else SumF(lobes, flags, fr.MustMatch(woWorld, wiWorld), k, wo, s.wi);
        BsdfSampleResult(wiWorld, pdf, f, TypeFlags(b))
  }

  // -----------------------------------------------------------------------
  // The container

  class Bsdf {
    const slots: array<Option<Bxdf>>
    const ior: real
    const geometryNormal: Vec3
    const shadingNormal: Vec3
    const ss: Vec3
    const ts: Vec3
    /** The filled slots, in slot order. */
    ghost var lobes: seq<Bxdf>

    /** The filled slots form a prefix of the array and hold `lobes`. */
    ghost predicate Valid()
      reads this, slots
    {
      && slots.Length == MaxBxdfCount
      && |lobes| <= MaxBxdfCount
      && (forall i :: 0 <= i < |lobes| ==> slots[i] == Some(lobes[i]))
      && (forall i :: |lobes| <= i < MaxBxdfCount ==> slots[i].None?)
      && (forall i :: 0 <= i < |lobes| ==> WellFormed(lobes[i]))
    }

    function ShadingFrame(): Frame
      reads this
    {
      Frame(geometryNormal, shadingNormal, ss, ts)
    }

    /** Every slot empty; `ior` defaults to 1.0; the normals and tangents are
        the surface interaction's. */
    constructor (geometryNormal: Vec3, shadingNormal: Vec3, ss: Vec3, ts: Vec3, ior: Option<real>)
      ensures Valid() && fresh(slots)
      ensures lobes == [] && forall i :: 0 <= i < slots.Length ==> slots[i].None?
      ensures this.ior == ior.GetOr(1.0)
      ensures this.geometryNormal == geometryNormal && this.shadingNormal == shadingNormal
      ensures this.ss == ss && this.ts == ts
    {
      slots := new Option<Bxdf>[MaxBxdfCount](_ => None);
      this.ior := ior.GetOr(1.0);
      this.geometryNormal := geometryNormal;
      this.shadingNormal := shadingNormal;
      this.ss := ss;
      this.ts := ts;
      lobes := [];
    }

    /** Writes `bxdf` into the first empty slot and returns the BSDF itself;
        panics when every slot is full. */
    method Add(bxdf: Bxdf) returns (r: Outcome<Bsdf>)
      requires Valid() && WellFormed(bxdf)
      modifies this, slots
      ensures Valid()
      ensures r.Panics? <==> |old(lobes)| == MaxBxdfCount
      ensures r.Panics? ==> lobes == old(lobes) && slots[..] == old(slots[..])
      ensures r.Returns? ==> r.value == this && lobes == old(lobes) + [bxdf]
      ensures r.Returns? ==> slots[..] == old(slots[..])[|old(lobes)| := Some(bxdf)]
    {
      var i := 0;
      while i < slots.Length && slots[i].Some?
        invariant 0 <= i <= |lobes|
      {
        i := i + 1;
      }
      if i == slots.Length {
        return Panics;
      }
      slots[i] := Some(bxdf);
      lobes := lobes + [bxdf];
      return Returns(this);
    }

    /** Scans the slots in order: true at the first filled slot whose flags
        intersect `flags`, a panic (`unwrap` of an empty slot) when an empty
        slot comes first, false only when all slots are filled and none
        matches. */
    function HasBxdfsWithFlags(flags: BxdfTypes): (r: Outcome<bool>)
      reads this, slots
      requires Valid()
      ensures r == Returns(true) <==> exists i :: 0 <= i < |lobes| && Matches(lobes[i], flags)
      ensures r == Returns(false) <==>
        |lobes| == MaxBxdfCount && forall i :: 0 <= i < |lobes| ==> !Matches(lobes[i], flags)
      ensures r.Panics? <==>
        |lobes| < MaxBxdfCount && forall i :: 0 <= i < |lobes| ==> !Matches(lobes[i], flags)
    {
      AnyMatchingOfPrefix(slots[..], lobes, flags);
      AnyMatching(slots[..], flags)
    }

    /** Samples an incoming direction for `woWorld` from one randomly chosen
        lobe that `flags` selects, and reports the combined pdf and value. */
    method SampleF(k: Kernels, woWorld: Vec3, flags: BxdfTypes, u: Point2, disk: Point2, choice: nat)
      returns (r: BsdfSampleResult)
      requires Valid() && k.Valid()
      requires MatchingIndices(lobes, flags) != [] ==> choice < |MatchingIndices(lobes, flags)|
      ensures r == SampleFOf(lobes, ShadingFrame(), k, woWorld, flags, choice, u, disk)
    {
      var matching := CollectMatching(flags);
      if |matching| == 0 {
        return ZeroSample(NoFlags);
      }
      var wo := ShadingFrame().WorldToLocal(woWorld);
      if wo.z == 0.0 {
        return ZeroSample(NoFlags);
      }
      var chosen := matching[choice];
      assert chosen < |lobes|;
      var bxdf := slots[chosen].value;
      assert bxdf == lobes[chosen];
      var sample := Bxdfs.SampleF(bxdf, k, u, disk, wo);
      var wi, pdf, f := sample.wi, sample.pdf, sample.f;
      if pdf == 0.0 {
        return ZeroSample(TypeFlags(bxdf));
      }
      var wiWorld := ShadingFrame().LocalToWorld(wi);
      if !Contains(TypeFlags(bxdf), Specular) || |matching| > 1 {
        pdf := AddOthersPdf(k, flags, chosen, bxdf, wo, wi, pdf);
      }
      if |matching| > 1 {
        pdf := pdf / (|matching| as real);
      }
      if !Contains(TypeFlags(bxdf), Specular) {
        f := SumMatchingF(k, flags, ShadingFrame().MustMatch(woWorld, wiWorld), wo, wi);
      }
      assert pdf == SamplePdfAsWritten(lobes, flags, chosen, k, wo, wi, sample.pdf);
      return BsdfSampleResult(wiWorld, pdf, f, TypeFlags(bxdf));
    }

    /** The positions of the filled slots whose lobes `flags` selects. */
    method CollectMatching(flags: BxdfTypes) returns (matching: seq<nat>)
      requires Valid()
      ensures matching == MatchingIndices(lobes, flags)
    {
      matching := [];
      var i := 0;
      while i < slots.Length
        invariant 0 <= i <= MaxBxdfCount
        invariant matching == MatchingIndices(lobes[..Min(i, |lobes|)], flags)
      {
        if slots[i].Some? {
          assert lobes[..i + 1][..i] == lobes[..i];
          if Matches(slots[i].value, flags) {
            matching := matching + [i];
          }
        }
        i := i + 1;
      }
      assert lobes[..|lobes|] == lobes;
    }

    /** The pdf loop of `sample_f` as written: for each other selected lobe
        it adds the pdf of the chosen lobe `bxdf`, not that lobe's own. */
    method AddOthersPdf(k: Kernels, flags: BxdfTypes, chosen: nat, bxdf: Bxdf, wo: Vec3, wi: Vec3, pdf0: real)
      returns (pdf: real)
      requires Valid() && chosen < |lobes| && bxdf == lobes[chosen]
      ensures pdf == pdf0 + OthersPdfAsWritten(lobes, flags, chosen, Bxdfs.Pdf(bxdf, k, wo, wi))
    {
      pdf := pdf0;
      var i := 0;
      while i < slots.Length
        invariant 0 <= i <= MaxBxdfCount
        invariant pdf == pdf0 + OthersPdfAsWritten(lobes[..Min(i, |lobes|)], flags, chosen, Bxdfs.Pdf(bxdf, k, wo, wi))
      {
        if slots[i].Some? {
          assert lobes[..i + 1][..i] == lobes[..i];
          var other := slots[i].value;
          if i != chosen && Matches(other, flags) {
            pdf := pdf + Bxdfs.Pdf(bxdf, k, wo, wi);
          }
        }
        i := i + 1;
      }
      assert lobes[..|lobes|] == lobes;
    }

    /** The lobe filter shared by `f` and `sample_f`: sums `f(wo, wi)` over
        the filled slots selected by `flags` that contain `mustMatch`. */
    method SumMatchingF(k: Kernels, flags: BxdfTypes, mustMatch: BxdfTypes, wo: Vec3, wi: Vec3)
      returns (f: Vec3)
      requires Valid()
      ensures f == SumF(lobes, flags, mustMatch, k, wo, wi)
    {
      f := Zero();
      var i := 0;
      while i < slots.Length
        invariant 0 <= i <= MaxBxdfCount
        invariant f == SumF(lobes[..Min(i, |lobes|)], flags, mustMatch, k, wo, wi)
      {
        if slots[i].Some? {
          assert lobes[..i + 1][..i] == lobes[..i];
          var bxdf := slots[i].value;
          if Matches(bxdf, flags) && Contains(TypeFlags(bxdf), mustMatch) {
            f := Common.Add(f, Bxdfs.F(bxdf, k, wo, wi));
          }
        }
        i := i + 1;
      }
      assert lobes[..|lobes|] == lobes;
    }

    /** `f(wo, wi)`: the selected lobes on the side the pair is on (reflection
        or transmission), times the shadow-terminator factor. */
    method F(k: Kernels, woWorld: Vec3, wiWorld: Vec3, flags: BxdfTypes) returns (f: Vec3)
      requires Valid()
      ensures f == Scale(SumF(lobes, flags, ShadingFrame().MustMatch(woWorld, wiWorld), k,
                              ShadingFrame().WorldToLocal(woWorld), ShadingFrame().WorldToLocal(wiWorld)),
                         k.shiftCosIn(Dot(wiWorld, shadingNormal), 1.002))
    {
      var wi := ShadingFrame().WorldToLocal(wiWorld);
      var wo := ShadingFrame().WorldToLocal(woWorld);
      var mustMatchType := ShadingFrame().MustMatch(woWorld, wiWorld);
      f := SumMatchingF(k, flags, mustMatchType, wo, wi);
      f := Scale(f, k.shiftCosIn(Dot(wiWorld, shadingNormal), 1.002));
    }

    /** The loop of `pdf`: the sum of the selected lobes' pdfs and their
        number. */
    method SumMatchingPdfs(k: Kernels, flags: BxdfTypes, wo: Vec3, wi: Vec3)
      returns (pdf: real, matchingBxdfCount: nat)
      requires Valid()
      ensures pdf == SumMatchingPdf(lobes, flags, k, wo, wi)
      ensures matchingBxdfCount == |MatchingIndices(lobes, flags)|
    {
      pdf, matchingBxdfCount := 0.0, 0;
      var i := 0;
      while i < slots.Length
        invariant 0 <= i <= MaxBxdfCount
        invariant pdf == SumMatchingPdf(lobes[..Min(i, |lobes|)], flags, k, wo, wi)
        invariant matchingBxdfCount == |MatchingIndices(lobes[..Min(i, |lobes|)], flags)|
      {
        if slots[i].Some? {
          assert lobes[..i + 1][..i] == lobes[..i];
          var bxdf := slots[i].value;
          if Matches(bxdf, flags) {
            matchingBxdfCount := matchingBxdfCount + 1;
            pdf := pdf + Bxdfs.Pdf(bxdf, k, wo, wi);
          }
        }
        i := i + 1;
      }
      assert lobes[..|lobes|] == lobes;
    }

    /** `pdf(wo, wi)`: 0 for a grazing `wo`, else the mean pdf of the selected
        lobes (0 when none is selected). */
    method Pdf(k: Kernels, woWorld: Vec3, wiWorld: Vec3, flags: BxdfTypes) returns (r: real)
      requires Valid()
      ensures r == PdfOf(lobes, flags, k, ShadingFrame().WorldToLocal(woWorld), ShadingFrame().WorldToLocal(wiWorld))
    {
      var wi := ShadingFrame().WorldToLocal(wiWorld);
      var wo := ShadingFrame().WorldToLocal(woWorld);
      if wo.z == 0.0 {
        return 0.0;
      }
      var pdf, matchingBxdfCount := SumMatchingPdfs(k, flags, wo, wi);
      if matchingBxdfCount > 0 {
        return pdf / (matchingBxdfCount as real);
      }
      return 0.0;
    }
  }

  // -----------------------------------------------------------------------
  // `has_bxdfs_with_flags`

  /** `any(|x| x.unwrap().flags().intersects(flags))` over the slots. */
  function AnyMatching(slots: seq<Option<Bxdf>>, flags: BxdfTypes): Outcome<bool> {
    if slots == [] then Returns(false)
    else if slots[0].None? then Panics
    else if Matches(slots[0].value, flags) then Returns(true)
    else AnyMatching(slots[1..], flags)
  }

  /** On slots whose filled prefix is `lobes`, the scan answers true iff some
      lobe matches, panics iff none matches and some slot is empty, and
      answers false iff none matches and every slot is filled. */
  lemma {:induction false} AnyMatchingOfPrefix(slots: seq<Option<Bxdf>>, lobes: seq<Bxdf>, flags: BxdfTypes)
    requires |lobes| <= |slots|
    requires forall i :: 0 <= i < |lobes| ==> slots[i] == Some(lobes[i])
    requires forall i :: |lobes| <= i < |slots| ==> slots[i].None?
    ensures AnyMatching(slots, flags) == Returns(true) <==>
      exists i :: 0 <= i < |lobes| && Matches(lobes[i], flags)
    ensures AnyMatching(slots, flags) == Returns(false) <==>
      |lobes| == |slots| && forall i :: 0 <= i < |lobes| ==> !Matches(lobes[i], flags)
    ensures AnyMatching(slots, flags).Panics? <==>
      |lobes| < |slots| && forall i :: 0 <= i < |lobes| ==> !Matches(lobes[i], flags)
  {
    if slots != [] && slots[0].Some? && !Matches(slots[0].value, flags) {
      AnyMatchingOfPrefix(slots[1..], lobes[1..], flags);
      assert forall i :: 1 <= i < |lobes| ==> lobes[i] == lobes[1..][i - 1];
    }
  }

  // -----------------------------------------------------------------------
  // Properties of the specification functions

  /** Past the chosen position every selected lobe counts as "other". */
  lemma {:induction false} OthersPdfBeforeChosen(lobes: seq<Bxdf>, flags: BxdfTypes, chosen: nat, k: Kernels,
                                                 wo: Vec3, wi: Vec3)
    requires |lobes| <= chosen
    ensures OthersPdf(lobes, flags, chosen, k, wo, wi) == SumMatchingPdf(lobes, flags, k, wo, wi)
  {
    if lobes != [] {
      OthersPdfBeforeChosen(lobes[..|lobes| - 1], flags, chosen, k, wo, wi);
    }
  }

  /** The sum over all selected lobes splits into the chosen lobe and the
      others. */
  lemma {:induction false} OthersPdfSplit(lobes: seq<Bxdf>, flags: BxdfTypes, chosen: nat, k: Kernels,
                                          wo: Vec3, wi: Vec3)
    requires chosen < |lobes| && Matches(lobes[chosen], flags)
    ensures SumMatchingPdf(lobes, flags, k, wo, wi)
         == Pdf(lobes[chosen], k, wo, wi) + OthersPdf(lobes, flags, chosen, k, wo, wi)
  {
    var init := lobes[..|lobes| - 1];
    if chosen == |lobes| - 1 {
      OthersPdfBeforeChosen(init, flags, chosen, k, wo, wi);
    } else {
      assert init[chosen] == lobes[chosen];
      OthersPdfSplit(init, flags, chosen, k, wo, wi);
    }
  }

  /** With no selected lobe besides the chosen one, the others add nothing. */
  lemma {:induction false} OthersPdfAlone(lobes: seq<Bxdf>, flags: BxdfTypes, chosen: nat, k: Kernels,
                                          wo: Vec3, wi: Vec3)
    requires forall i :: 0 <= i < |lobes| && Matches(lobes[i], flags) ==> i == chosen
    ensures OthersPdf(lobes, flags, chosen, k, wo, wi) == 0.0
  {
    if lobes != [] {
      var init := lobes[..|lobes| - 1];
      assert forall i :: 0 <= i < |init| ==> init[i] == lobes[i];
      OthersPdfAlone(init, flags, chosen, k, wo, wi);
    }
  }

  /** When the chosen lobe's sampling pdf is its own `pdf` at the sampled
      direction (as for the default cosine sampling), the corrected `sample_f`
      reports exactly what `pdf(wo, wi)` answers for that pair: the mean of
      the selected lobes' pdfs. */
  lemma SamplePdfIsMean(lobes: seq<Bxdf>, flags: BxdfTypes, chosen: nat, k: Kernels, wo: Vec3, wi: Vec3, p0: real)
    requires chosen < |lobes| && Matches(lobes[chosen], flags)
    requires p0 == Pdf(lobes[chosen], k, wo, wi)
    ensures SamplePdf(lobes, flags, chosen, k, wo, wi, p0) == MeanMatchingPdf(lobes, flags, k, wo, wi)
  {
    OthersPdfSplit(lobes, flags, chosen, k, wo, wi);
    if |MatchingIndices(lobes, flags)| == 1 {
      OnlySelected(lobes, flags, chosen);
      OthersPdfAlone(lobes, flags, chosen, k, wo, wi);
    }
  }

  /** When one lobe is selected, every selected position is that lobe's. */
  lemma OnlySelected(lobes: seq<Bxdf>, flags: BxdfTypes, chosen: nat)
    requires chosen < |lobes| && Matches(lobes[chosen], flags)
    requires |MatchingIndices(lobes, flags)| == 1
    ensures forall i :: 0 <= i < |lobes| && Matches(lobes[i], flags) ==> i == chosen
  {
    var matching := MatchingIndices(lobes, flags);
    assert chosen in matching;
    forall i | 0 <= i < |lobes| && Matches(lobes[i], flags)
      ensures i == chosen
    {
      assert i in matching;
    }
  }

  /** How many selected lobes other than the one at `chosen` there are. */
  function OthersCount(lobes: seq<Bxdf>, flags: BxdfTypes, chosen: nat): nat {
    if lobes == [] then 0
    else
      var i := |lobes| - 1;
      OthersCount(lobes[..i], flags, chosen) + (if i != chosen && Matches(lobes[i], flags) then 1 else 0)
  }

  /** The loop as written adds the chosen lobe's pdf once per other selected
      lobe. */
  lemma {:induction false} OthersPdfAsWrittenCount(lobes: seq<Bxdf>, flags: BxdfTypes, chosen: nat, p: real)
    ensures OthersPdfAsWritten(lobes, flags, chosen, p) == Repeat(p, OthersCount(lobes, flags, chosen))
  {
    if lobes != [] {
      var i := |lobes| - 1;
      OthersPdfAsWrittenCount(lobes[..i], flags, chosen, p);
    }
  }

  /** The selected lobes are the chosen one and the others. */
  lemma {:induction false} OthersCountSplit(lobes: seq<Bxdf>, flags: BxdfTypes, chosen: nat)
    requires chosen < |lobes| && Matches(lobes[chosen], flags)
    ensures OthersCount(lobes, flags, chosen) + 1 == |MatchingIndices(lobes, flags)|
  {
    var init := lobes[..|lobes| - 1];
    if chosen == |lobes| - 1 {
      OthersCountBeforeChosen(init, flags, chosen);
    } else {
      assert init[chosen] == lobes[chosen];
      OthersCountSplit(init, flags, chosen);
    }
  }

  lemma {:induction false} OthersCountBeforeChosen(lobes: seq<Bxdf>, flags: BxdfTypes, chosen: nat)
    requires |lobes| <= chosen
    ensures OthersCount(lobes, flags, chosen) == |MatchingIndices(lobes, flags)|
  {
    if lobes != [] {
      OthersCountBeforeChosen(lobes[..|lobes| - 1], flags, chosen);
    }
  }

  /** `n` copies of `x` added up. */
  function Repeat(x: real, n: nat): real {
    if n == 0 then 0.0 else Repeat(x, n - 1) + x
  }

  lemma MulSucc(p: real, n: nat)
    ensures p * n as real + p == p * (n + 1) as real
  {
  }

  lemma {:induction false} RepeatIsProduct(x: real, n: nat)
    ensures Repeat(x, n) == x * n as real
  {
    if n > 0 {
      RepeatIsProduct(x, n - 1);
      MulSucc(x, n - 1);
    }
  }

  lemma MeanOfCopies(p: real, n: nat)
    ensures (p + Repeat(p, n)) / (n + 1) as real == p
  {
    RepeatIsProduct(p, n);
    MulSucc(p, n);
  }

  /** As written, the pdf `sample_f` reports for a sample from a non-specular
      lobe ignores the other lobes' pdfs: it is the chosen lobe's own pdf. */
  lemma SamplePdfAsWrittenIgnoresOthers(lobes: seq<Bxdf>, flags: BxdfTypes, chosen: nat, k: Kernels,
                                        wo: Vec3, wi: Vec3)
    requires chosen < |lobes| && Matches(lobes[chosen], flags)
    requires !Contains(TypeFlags(lobes[chosen]), Specular)
    ensures SamplePdfAsWritten(lobes, flags, chosen, k, wo, wi, Pdf(lobes[chosen], k, wo, wi))
         == Pdf(lobes[chosen], k, wo, wi)
  {
    var p := Pdf(lobes[chosen], k, wo, wi);
    var n := OthersCount(lobes, flags, chosen);
    OthersCountSplit(lobes, flags, chosen);
    OthersPdfAsWrittenCount(lobes, flags, chosen, p);
    var total := p + OthersPdfAsWritten(lobes, flags, chosen, p);
    assert total == p + Repeat(p, n);
    assert SamplePdfAsWritten(lobes, flags, chosen, k, wo, wi, p)
        == if n + 1 > 1 then total / (n + 1) as real else total;
    MeanOfCopies(p, n);
  }

  /** A diffuse lobe beside a perfect mirror. */
  function DiffuseAndMirror(reflectance: Vec3): seq<Bxdf> {
    [Lambertian(L.Lambertian(reflectance)), SpecularReflection(SR.SpecularReflection(reflectance, Fresnel.Noop))]
  }

  /** A request for `ALL` selects both lobes of `DiffuseAndMirror`. */
  lemma DiffuseAndMirrorBothSelected(reflectance: Vec3)
    ensures MatchingIndices(DiffuseAndMirror(reflectance), All) == [0, 1]
  {
    var lobes := DiffuseAndMirror(reflectance);
    assert Matches(lobes[0], All) && Matches(lobes[1], All);
    assert lobes[..1] == [lobes[0]];
    assert lobes[..1][..0] == [];
  }

  /** Sampled straight up from the diffuse lobe of `DiffuseAndMirror`, as
      written `sample_f` reports 1/pi, while `pdf` for the same pair answers
      the mean (1/pi + 1)/2, which the corrected version reports. */
  lemma SamplePdfAsWrittenCounterexample(k: Kernels, reflectance: Vec3)
    ensures SamplePdfAsWritten(DiffuseAndMirror(reflectance), All, 0, k, Up(), Up(), L.FracOnePi) == L.FracOnePi
    ensures SamplePdf(DiffuseAndMirror(reflectance), All, 0, k, Up(), Up(), L.FracOnePi) == (L.FracOnePi + 1.0) / 2.0
    ensures MeanMatchingPdf(DiffuseAndMirror(reflectance), All, k, Up(), Up()) == (L.FracOnePi + 1.0) / 2.0
    ensures L.FracOnePi != (L.FracOnePi + 1.0) / 2.0
  {
    var lobes := DiffuseAndMirror(reflectance);
    var up := Up();
    DiffuseAndMirrorBothSelected(reflectance);
    assert Pdf(lobes[0], k, up, up) == L.FracOnePi;
    assert Pdf(lobes[1], k, up, up) == 1.0;
    SamplePdfAsWrittenIgnoresOthers(lobes, All, 0, k, up, up);
    SamplePdfIsMean(lobes, All, 0, k, up, up, L.FracOnePi);
    OthersPdfSplit(lobes, All, 0, k, up, up);
    assert SumMatchingPdf(lobes[..1], All, k, up, up) == L.FracOnePi;
    assert SumMatchingPdf(lobes, All, k, up, up) == L.FracOnePi + 1.0;
  }

  /** No lobe carries `TRANSMISSION`, so the transmission side of `f` is
      always zero, whatever the lobes. */
  lemma {:induction false} SumFTransmissionZero(lobes: seq<Bxdf>, flags: BxdfTypes, k: Kernels, wo: Vec3, wi: Vec3)
    ensures SumF(lobes, flags, Transmission, k, wo, wi) == Zero()
  {
    if lobes != [] {
      SumFTransmissionZero(lobes[..|lobes| - 1], flags, k, wo, wi);
      FlagConstants();
    }
  }

  /** The selected lobes' pdfs average to a value between the same bounds;
      with no selected lobe the mean is 0. */
  lemma {:induction false} SumMatchingPdfBounds(lobes: seq<Bxdf>, flags: BxdfTypes, k: Kernels, wo: Vec3, wi: Vec3,
                                                hi: real)
    requires forall i :: 0 <= i < |lobes| && Matches(lobes[i], flags) ==> 0.0 <= Pdf(lobes[i], k, wo, wi) <= hi
    ensures 0.0 <= SumMatchingPdf(lobes, flags, k, wo, wi) <= Repeat(hi, |MatchingIndices(lobes, flags)|)
  {
    if lobes != [] {
      var init := lobes[..|lobes| - 1];
      var last := lobes[|lobes| - 1];
      assert forall i :: 0 <= i < |init| ==> init[i] == lobes[i];
      SumMatchingPdfBounds(init, flags, k, wo, wi, hi);
      var n := |MatchingIndices(init, flags)|;
      var sumInit := SumMatchingPdf(init, flags, k, wo, wi);
      var m := |MatchingIndices(lobes, flags)|;
      var sum := SumMatchingPdf(lobes, flags, k, wo, wi);
      if Matches(last, flags) {
        assert m == n + 1 && sum == sumInit + Pdf(last, k, wo, wi);
      } else {
        assert m == n && sum == sumInit;
      }
    }
  }

  lemma DivBound(sum: real, hi: real, m: real)
    requires m > 0.0 && 0.0 <= sum <= hi * m
    ensures 0.0 <= sum / m <= hi
  {
  }

  lemma MeanMatchingPdfBounds(lobes: seq<Bxdf>, flags: BxdfTypes, k: Kernels, wo: Vec3, wi: Vec3, hi: real)
    requires forall i :: 0 <= i < |lobes| && Matches(lobes[i], flags) ==> 0.0 <= Pdf(lobes[i], k, wo, wi) <= hi
    ensures MatchingIndices(lobes, flags) == [] ==> MeanMatchingPdf(lobes, flags, k, wo, wi) == 0.0
    ensures 0.0 <= MeanMatchingPdf(lobes, flags, k, wo, wi)
    ensures MatchingIndices(lobes, flags) != [] ==> MeanMatchingPdf(lobes, flags, k, wo, wi) <= hi
  {
    SumMatchingPdfBounds(lobes, flags, k, wo, wi, hi);
    var m := |MatchingIndices(lobes, flags)|;
    if m > 0 {
      RepeatIsProduct(hi, m);
      DivBound(SumMatchingPdf(lobes, flags, k, wo, wi), hi, m as real);
    }
  }

  /** `sample_f` as written: a grazing `wo` or no selected lobe yields the
      empty sample, and so does a lobe sample of pdf 0 (keeping the lobe's
      flags); a diffuse chosen lobe reports its OWN pdf for the sampled pair,
      whatever the other selected lobes, which is what `pdf` answers only when
      it is the one selected lobe; and a non-specular lobe's sample that
      crosses the surface has value zero. */
  lemma SampleFReportsChosenPdf(lobes: seq<Bxdf>, fr: Frame, k: Kernels, woWorld: Vec3, flags: BxdfTypes,
                             choice: nat, u: Point2, disk: Point2)
    requires k.Valid() && forall i :: 0 <= i < |lobes| ==> WellFormed(lobes[i])
    requires MatchingIndices(lobes, flags) != [] ==> choice < |MatchingIndices(lobes, flags)|
    ensures var r := SampleFOf(lobes, fr, k, woWorld, flags, choice, u, disk);
            var wo := fr.WorldToLocal(woWorld);
            && (MatchingIndices(lobes, flags) == [] || wo.z == 0.0 ==> r == ZeroSample(NoFlags))
            && (MatchingIndices(lobes, flags) != [] && wo.z != 0.0 ==>
                  var chosen := MatchingIndices(lobes, flags)[choice];
                  var s := Bxdfs.SampleF(lobes[chosen], k, u, disk, wo);
                  && r.sampledFlags == TypeFlags(lobes[chosen])
                  && (s.pdf == 0.0 ==> r == ZeroSample(TypeFlags(lobes[chosen])))
                  && (s.pdf != 0.0 && lobes[chosen].Lambertian? ==>
                        r.pdf == Pdf(lobes[chosen], k, wo, s.wi))
                  && (s.pdf != 0.0 && lobes[chosen].Lambertian? && |MatchingIndices(lobes, flags)| == 1 ==>
                        r.pdf == PdfOf(lobes, flags, k, wo, s.wi))
                  && ((s.pdf != 0.0 && !Contains(TypeFlags(lobes[chosen]), Specular) &&
                       !fr.Reflects(woWorld, r.wi)) ==> r.f == Zero()))
  {
    var matching := MatchingIndices(lobes, flags);
    var wo := fr.WorldToLocal(woWorld);
    if matching != [] && wo.z != 0.0 {
      var chosen := matching[choice];
      var s := Bxdfs.SampleF(lobes[chosen], k, u, disk, wo);
      if s.pdf != 0.0 {
        if lobes[chosen].Lambertian? {
          assert chosen in matching;
          SamplePdfAsWrittenIgnoresOthers(lobes, flags, chosen, k, wo, s.wi);
          SamplePdfIsMean(lobes, flags, chosen, k, wo, s.wi, s.pdf);
          if |matching| == 1 {
            OnlySelected(lobes, flags, chosen);
            OthersPdfAlone(lobes, flags, chosen, k, wo, s.wi);
          }
        }
        SumFTransmissionZero(lobes, flags, k, wo, s.wi);
      }
    }
  }
}
