# rust-raytracer: a verified model of the renderer's discrete core

This project models the discrete skeleton of a small Rust path tracer in Dafny and proves properties of it.
The parts it covers are:

- **Film and tiling.**
  - The film splits the image into buckets. The columns loop is the outer one and the rows loop the inner one.
  - Buckets are handed out one after another.
  - Every sample of a finished bucket is splatted onto the 3×3 neighbourhood of its nearest pixel with the weights 0.1 / 0.2 / 1.0.
- **The renderer.**
  - The work queue is filled with tile origins and drained at random indices.
  - The renderer clamps each claimed tile and counts its rays.
  - Nearest-hit selection, shadow-ray occlusion, light visibility, the early cut-offs of `trace`, and camera-ray generation.
- **The BSDF container.**
  - The 5-slot `Bsdf` and its flag algebra: `add` and `has_bxdfs_with_flags`.
  - Lobe choice and pdf bookkeeping in `sample_f`, plus `f` and `pdf`.
  - The older vector-backed `BSDF`.
- **The BxDF leaves and the material builders.**
  - The leaves: Lambertian, specular reflection and specular transmission, and the default cosine-hemisphere `pdf`/`sample_f`.
  - The spherical-coordinate helpers.
  - The matte, plastic, mirror and glass material builders.
- **Samplers, textures and triangles.**
  - The sampler's method parsing and its two sample generators.
  - The mip-map texel lookup.
  - The triangle's mesh indexing, bounding box, BVH node index and the accept/reject rules of its intersection test.

How the model is written:

- Floating-point values are modelled as `real`.
- Randomness, I/O and code outside the core become parameters:
  - the index `rng.gen_range` picks;
  - the lobe `choose` picks;
  - the disk sample;
  - `sqrt`, `normalize`, Fresnel `evaluate` and `refract`;
  - the BVH's candidate list;
  - the material shading.
- Objects the source mutates in place are classes: `Bucket`, `Film`, `WorkQueue`, `Bsdf`, `LegacyBsdf`, `SurfaceInteraction` and `Triangle`.
- Loops become methods that are proved against specification functions.

Modules (one file each):

| module | file | models |
|---|---|---|
| `Common` | common.dfy | `Option`, `Outcome` (return or panic), vectors, clamps |
| `Tiling` | tiling.dfy | the bucket grid shared by the film and the work queue |
| `Films` | film.dfy | `Bucket`, `Film`, `init_buckets`, the splat loop |
| `Renderer` | renderer.dfy | `WorkQueue`, tile clamping, scene queries, `trace`, `get_rays_at` |
| `Flags` | flags.dfy | `BXDFTYPES` of both BSDF revisions |
| `BsdfHelpers` | bsdf_helpers.dfy | the helpers in src/bsdf/helpers.rs |
| `Kernels` | kernels.dfy | the numeric kernels passed in as parameters, and `Fresnel` |
| `Lambertians`, `SpecularReflections`, `SpecularTransmissions` | lambertian.dfy, specular_reflection.dfy, specular_transmission.dfy | the three leaves |
| `Bxdfs` | bxdfs.dfy | the `Bxdf` enum, its dispatch and the trait defaults |
| `Bsdfs` | bsdf.dfy | the 5-slot `Bsdf` |
| `LegacyBsdfs` | legacy_bsdf.dfy | the vector-backed `BSDF` of src/bsdf/mod.rs |
| `Interactions` | interactions.dfy | `SurfaceInteraction` |
| `Matte`, `Plastic`, `Mirror`, `Glass` | matte.dfy, plastic.dfy, mirror.dfy, glass.dfy | the material builders |
| `Samplers` | sampler.dfy | `SamplerMethod`, `Sampler` |
| `MipMaps` | mip_map.dfy | `MipMap::new`, `lookup` |
| `Triangles` | triangle.dfy | `Triangle` |

## Model

| member | source | states |
|---|---|---|
| Tiling.CeilDiv | src/film.rs:184-185 | The bucket count per axis is the least `r` with `a <= r*b`: `r` buckets reach the image edge and `r-1` do not |
| Tiling.Tiles | src/film.rs:184-198 | There are exactly `columns*rows` buckets, and bucket `i` is tile `i` of the columns-outer, rows-inner enumeration |
| Tiling.TileRectBounds | src/film.rs:186-190 | Each bucket's rectangle is non-empty, ends inside the image, and is at most one bucket size wide and high |
| Tiling.TileAtBounds | src/film.rs:184-192 | The same bounds hold for the `i`-th bucket in push order |
| Tiling.TileAtStart | src/film.rs:184-186 | The bucket pushed for loop indices `(x, y)` sits at index `x*rows + y` and starts at `(x*bw, y*bh)` |
| Tiling.TilesCoverImage | src/film.rs:184-192 | Every pixel of the image lies in some bucket |
| Tiling.TilesDisjoint | src/film.rs:184-192 | No pixel lies in two different buckets |
| Films.Bucket.constructor | src/film.rs:193-198 | A new bucket has its tile, no samples and is not finished |
| Films.Bucket.AddSamples | src/film.rs:20-22 | Appends the samples after the existing ones, in order, and leaves `finished` alone |
| Films.Bucket.Finish | src/film.rs:24-26 | Sets `finished` and keeps the samples |
| Films.InitBuckets | src/film.rs:180-203 | Returns one fresh, empty, unfinished and distinct bucket per tile, in the tiling order |
| Films.Film.constructor | src/film.rs:51-83 | Creates `W*H` zero pixels and one fresh empty bucket per tile; the cursor is 0 and the settings are stored unchanged |
| Films.Film.GetBucket | src/film.rs:85-97 | Returns None iff the cursor has passed the last bucket. Otherwise it returns the bucket under the cursor, advances the cursor by one, and appends the bucket to the handed-out sequence, so each bucket is handed out once and in order |
| Films.Film.GetPixelIndex | src/film.rs:174-177 | An in-bounds `(x, y)` maps to an index below `W*H` |
| Films.Film.PixelIndexInjective | src/film.rs:174-177 | Two columns inside the image that give the same index are the same pixel |
| Films.Film.UpdateImageBuffer | src/film.rs:99-129 | The pixel array afterwards is the splat of every sample of the bucket, in order, onto the old array |
| Films.Film.SplatSample | src/film.rs:105-128 | The two nested filter loops for one sample leave the pixels equal to the nine cell updates applied in order, around the pixel the sample's location is cast to |
| Films.Film.SplatCell | src/film.rs:112-127 | One filter cell updates only the target pixel, if that pixel is inside the image |
| Films.CastPixel | src/film.rs:105-116 | The centre computed by `floor(v + 0.5) as u32` and then `as i32` is the nearest pixel when that is in `[0, 2^31)`, 0 when the nearest pixel is negative, and negative from `2^31` on |
| Films.CellTarget | src/film.rs:112-122 | A cell that lands inside the image targets an index below `W*H` |
| Films.SplatCellsEffect | src/film.rs:108-128 | After the first `n` cells, a pixel has been bumped once with its filter weight exactly when it is near the centre and its cell is among those `n`; otherwise it is unchanged |
| Films.CellStep | src/film.rs:112-126 | A cell targets a pixel iff the pixel is near the centre and is that cell, and then it adds that cell's filter weight |
| Films.SplatSampleEffect | src/film.rs:65-128 | One sample adds weight 1.0 to the pixel it is cast to, 0.2 to the edge neighbours and 0.1 to the corners, and leaves every other pixel untouched |
| Films.SplatAllUntouched | src/film.rs:103-128 | A pixel that is near no sample's centre keeps its old value through the whole splat |
| Films.SaturateU32 | src/film.rs:105-106 | The saturating float-to-u32 cast keeps values in `[0, 2^32-1]`, sends negatives to 0 and larger values to `2^32-1` |
| Films.WrapI32 | src/film.rs:115-116 | The `u32 as i32` cast keeps values below `2^31` and maps the others to `u - 2^32`, which is negative |
| Films.SplatAxisExactInRange | src/film.rs:105-118 | For a nearest pixel in `[0, 2^31)`, as for every location at or right of -0.5, the cast axis step equals the exact one |
| Films.SplatAxisAsWrittenLeavesNeighbourhood | src/film.rs:105-118 | As written, a sample at x = -1.2 (nearest pixel -1) in a 4-pixel row splats its centre cell onto pixel 0 and its right cell onto pixel 1, two pixels from the nearest pixel; corrected, the centre cell is dropped and the right cell lands on pixel 0 |
| Films.SplatAxisStaysInNeighbourhood | src/film.rs:112-118 | The exact axis step targets a pixel iff it is inside the image, and that pixel is within ±1 of the nearest pixel |
| Renderer.TileStarts | src/renderer.rs:57-72 | The queue holds one `Work` per tile, at the tile's start, in columns-outer order |
| Renderer.RemoveAt | src/renderer.rs:82 | Removing index `i` keeps the elements before `i` and shifts the ones after it down by one |
| Renderer.RemoveAtMultiset | src/renderer.rs:82 | Removal takes out exactly one copy of the removed element |
| Renderer.DrainIsPermutation | src/renderer.rs:74-83 | Draining the queue at any sequence of valid random indices yields a permutation of its contents |
| Renderer.WorkQueue.constructor | src/renderer.rs:57-72 | The new queue is exactly the tile starts |
| Renderer.WorkQueue.GetWork | src/renderer.rs:74-83 | Returns None iff the queue is empty. Otherwise it returns the element at the picked index and leaves the rest of the queue in order |
| Renderer.TileEnd | src/renderer.rs:127-129 | Each end coordinate is the smaller of the image size and the start plus the bucket size: at most both, and equal to one |
| Renderer.RaysDone | src/renderer.rs:163 | The count is at most `bw*bh*samples`, and it is zero iff there are no samples or the clamped tile has no column or no row |
| Renderer.ClaimedTile | src/renderer.rs:128-129 | For every queued tile, the clamped end equals the bucket's end, and `rays_done` is the bucket's pixel count times `samples`, at most `bw*bh*samples` |
| Renderer.ClosestOf | src/renderer.rs:288-314 | None iff no candidate hits. Otherwise the chosen candidate hits no farther than any other, and strictly nearer than every earlier one, so on a tie the first wins |
| Renderer.CheckIntersectScene | src/renderer.rs:288-314 | The scan returns the candidate `ClosestOf` selects, with its distance |
| Renderer.CheckIntersectSceneSimple | src/renderer.rs:316-335 | True iff some candidate hits at a distance below `max_dist` |
| Renderer.LightDistance | src/renderer.rs:342 | With an exact square root, the distance is non-negative and squares to the squared length of `light - position` |
| Renderer.CheckLightVisible | src/renderer.rs:337-350 | The light is visible iff no candidate hits the ray from `position` along `normalize(light - position)` closer than `LightDistance(position, light)` |
| Renderer.OcclusionMonotone | src/renderer.rs:320-332 | Whatever is hit within a limit is hit within every larger limit: a light hidden at some distance stays hidden farther along the same ray |
| Renderer.Trace | src/renderer.rs:247-286 | Returns None iff the contribution is below 0.01 or the depth exceeds 6. On a miss it returns the background colour; on a hit it returns the shading of the nearest object |
| Renderer.GetRaysAt | src/renderer.rs:189-245 | Returns Err iff `pos_y >= height`; otherwise panics iff `width == 0` (the `width - 1` underflow at line 217), and else gives exactly `samples` rays, all from the camera position |
| Flags.FlagConstants | src/bsdf.rs:288-300 | The six flags are distinct single bits, `NONE` is 0, and `ALL` contains every flag except `TRANSMISSION` |
| Flags.LegacyAllConstant | src/bsdf/mod.rs:36-43 | The older `ALL` is exactly `REFLECTION \| REFRACTION \| DIFFUSE` |
| Flags.FlagAlgebra | src/bsdf.rs:288-300 | `intersects` is symmetric and never holds with `NONE`; `contains` of a non-empty set implies `intersects` |
| BsdfHelpers.CosTheta | src/bsdf/helpers.rs:10-12 | `cos θ` squares to `cos²θ`, and lies in `[-1, 1]` for a unit direction |
| BsdfHelpers.Cos2Theta | src/bsdf/helpers.rs:13-15 | `cos²θ` is never negative |
| BsdfHelpers.AbsCosTheta | src/bsdf/helpers.rs:16-18 | `\|cos θ\|` is non-negative, equals `±cos θ`, and squares to `cos²θ` |
| BsdfHelpers.Sin2Theta | src/bsdf/helpers.rs:19-21 | `sin²θ = 1 - cos²θ`, so it is at most 1 |
| BsdfHelpers.SinTheta | src/bsdf/helpers.rs:22-24 | For a unit direction, `sin θ` is non-negative with a non-negative root, and `sin²θ + cos²θ = 1` with an exact root |
| BsdfHelpers.CosPhi | src/bsdf/helpers.rs:31-38 | 1.0 when `sin θ = 0`, otherwise `x / sin θ` clamped; always in `[-1, 1]` |
| BsdfHelpers.SinPhi | src/bsdf/helpers.rs:39-46 | 1.0 (not 0) when `sin θ = 0`, otherwise `y / sin θ` clamped; always in `[-1, 1]` |
| BsdfHelpers.Cos2Phi | src/bsdf/helpers.rs:47-49 | `cos²φ` lies in `[0, 1]` |
| BsdfHelpers.Sin2Phi | src/bsdf/helpers.rs:50-52 | `sin²φ` lies in `[0, 1]` |
| BsdfHelpers.SameHemisphere | src/bsdf/helpers.rs:54-56 | Never holds for a direction in the tangent plane |
| BsdfHelpers.SameHemisphereSigns | src/bsdf/helpers.rs:54-56 | Two directions share a hemisphere iff both z are positive or both are negative; the relation is symmetric and fails when either z is 0 |
| BsdfHelpers.CosineWeightedInHemisphere | src/bsdf/helpers.rs:58-63 | The sampled direction keeps the disk point's x and y, and its z is never negative |
| Kernels.Fresnel.Evaluate | src/bsdf/specular_reflection.rs:38 | The no-op Fresnel term evaluates to 1 |
| Lambertians.TypeFlagsExactly | src/bsdf/lambertian.rs:19-21 | The flags are exactly `REFLECTION \| DIFFUSE` |
| Lambertians.FConstant | src/bsdf/lambertian.rs:23-25 | `f` is the same for every direction pair, reciprocal, equal to reflectance/π, and non-negative when the reflectance is |
| SpecularReflections.SampleF | src/bsdf/specular_reflection.rs:35-41 | The sampled direction is the mirror `(-x, -y, z)` of `wo` with the same z; the pdf is 1; with a no-op Fresnel, `f = reflectance / \|cos θ\|` |
| SpecularReflections.TypeFlagsExactly | src/bsdf/specular_reflection.rs:23-25 | The flags are exactly `REFLECTION \| SPECULAR` |
| SpecularReflections.MirrorInvolution | src/bsdf/specular_reflection.rs:36 | Mirroring twice gives back `wo`, and the mirror stays in `wo`'s hemisphere |
| SpecularTransmissions.New | src/bsdf/specular_transmission.rs:24-37 | Stores the colour, both indices and the mode, with a dielectric Fresnel over the same indices |
| SpecularTransmissions.EtaT | src/bsdf/specular_transmission.rs:54-58 | The transmitted index is never zero when both stored indices are non-zero |
| SpecularTransmissions.SampleF | src/bsdf/specular_transmission.rs:53-77 | Total internal reflection (no refracted direction) gives the all-zero sample; otherwise the refracted direction with pdf 1 |
| SpecularTransmissions.EtaSwap | src/bsdf/specular_transmission.rs:54-58 | `(η_i, η_t)` is `(η_a, η_b)` when `cos θ(wo) > 0` and the swapped pair otherwise |
| SpecularTransmissions.TypeFlagsExactly | src/bsdf/specular_transmission.rs:41-43 | The flags are exactly `REFRACTION \| SPECULAR`; `TRANSMISSION` is not among them |
| SpecularTransmissions.RadianceScaling | src/bsdf/specular_transmission.rs:67-74 | Radiance mode scales the transmittance `colour ⊙ (1 - F)` by `η_i²/η_t²`; the other mode does not scale it |
| Bxdfs.DefaultPdf | src/bsdf.rs:314-320 | The default pdf is non-negative, and positive iff `wo` and `wi` share a hemisphere |
| Bxdfs.DefaultSampleWi | src/bsdf.rs:321-325 | The default sample is flipped into `wo`'s hemisphere and keeps the disk point's x and y |
| Bxdfs.DefaultSampleSameSide | src/bsdf.rs:321-328 | For a `wo` off the horizon, a non-horizontal default sample lies in `wo`'s hemisphere and has positive pdf |
| Bxdfs.SampleF | src/bsdf.rs:362-370 | A Lambertian sample returns the default direction with the pdf and `f` of that direction; specular lobes return pdf 0 or 1 |
| Bxdfs.TypeFlags | src/bsdf.rs:331-339 | Every lobe is exactly one of reflection or refraction, never carries `TRANSMISSION` or no flag, and is specular iff it is one of the two delta lobes |
| Bxdfs.Matches | src/bsdf.rs:88 | Every lobe is selected by `ALL` and none by `NONE` |
| Bxdfs.F | src/bsdf.rs:341-349 | The delta lobes' `f` is zero for every pair; the Lambertian `f` is `reflectance/π` for every pair |
| Bxdfs.Pdf | src/bsdf.rs:351-359 | The delta lobes' pdf is 1 for every pair; the Lambertian pdf is non-negative, and positive iff `wo` and `wi` share a hemisphere |
| Bsdfs.Frame.WorldToLocal | src/bsdf.rs:245-251 | The local `cos θ` is the cosine with the shading normal, and an orthonormal frame maps its shading normal to the local z axis |
| Bsdfs.Frame.LocalToWorld | src/bsdf.rs:253-259 | For an orthonormal shading frame, `world_to_local(local_to_world(v)) == v` |
| Bsdfs.MatchingIndices | src/bsdf.rs:82-96 | The matching indices are increasing, and they are exactly the filled slots whose flags intersect the request |
| Bsdfs.Bsdf.constructor | src/bsdf.rs:44-53 | All 5 slots are empty; `ior` is the given one or 1.0; the normals and tangents come from the interaction |
| Bsdfs.Bsdf.Add | src/bsdf.rs:55-61 | Panics iff all 5 slots are full. Otherwise it writes the lobe into the first empty slot, leaves the other slots alone, keeps the filled slots a prefix and returns itself |
| Bsdfs.Bsdf.HasBxdfsWithFlags | src/bsdf.rs:63-72 | True iff some filled slot matches. False only when all 5 slots are full and none matches; it panics when it reaches an empty slot first |
| Bsdfs.AnyMatchingOfPrefix | src/bsdf.rs:63-72 | The slot scan's three outcomes, stated over a filled prefix |
| Bsdfs.Bsdf.SampleF | src/bsdf.rs:74-185 | Equals the specification `SampleFOf` for the picked lobe, whose pdf is the as-written `SamplePdfAsWritten` |
| Bsdfs.Bsdf.CollectMatching | src/bsdf.rs:82-96 | The collected indices are the matching indices |
| Bsdfs.Bsdf.AddOthersPdf | src/bsdf.rs:147-156 | As written: adds the chosen lobe's pdf once for every other matching lobe |
| Bsdfs.Bsdf.SumMatchingF | src/bsdf.rs:162-175 | The sum of `f` over the lobes that match the request and contain the required type |
| Bsdfs.Bsdf.F | src/bsdf.rs:187-215 | The sum of `f` over matching lobes that contain `REFLECTION` for same-side `wi`/`wo` (w.r.t. the geometric normal) and `TRANSMISSION` otherwise, times the shadow-terminator factor |
| Bsdfs.Bsdf.SumMatchingPdfs | src/bsdf.rs:229-237 | Returns the pdf sum over the matching lobes and their count |
| Bsdfs.Bsdf.Pdf | src/bsdf.rs:217-243 | Zero when local `wo.z == 0` or nothing matches; otherwise the mean of the matching lobes' pdfs |
| Bsdfs.OthersPdfSplit | src/bsdf.rs:147-156 | The sum over all matching lobes is the chosen lobe's pdf plus the sum over the others |
| Bsdfs.OthersPdfAlone | src/bsdf.rs:147-156 | If the chosen lobe is the only match, the others contribute nothing |
| Bsdfs.OthersPdfBeforeChosen | src/bsdf.rs:147-156 | Over the slots before the chosen one, "the others" are all the matches |
| Bsdfs.SamplePdfIsMean | src/bsdf.rs:147-160 | The corrected pdf (each other lobe adding its own pdf) is the mean pdf of the matching lobes, the same value `pdf` returns |
| Bsdfs.OnlySelected | src/bsdf.rs:82-96 | With one selected lobe, every selected position is that lobe's |
| Bsdfs.OthersPdfAsWrittenCount | src/bsdf.rs:147-156 | As written, the loop adds the chosen lobe's pdf once per other match |
| Bsdfs.OthersCountSplit | src/bsdf.rs:147-158 | The other matches number one less than all matches |
| Bsdfs.RepeatIsProduct | src/bsdf.rs:152 | Adding `p` to itself `n` times gives `n·p` |
| Bsdfs.MeanOfCopies | src/bsdf.rs:152-160 | The mean of `n+1` copies of `p` is `p` |
| Bsdfs.SamplePdfAsWrittenIgnoresOthers | src/bsdf.rs:147-160 | As written, for a non-specular chosen lobe the pdf is only the chosen lobe's own pdf, whatever the other matches are |
| Bsdfs.SamplePdfAsWrittenCounterexample | src/bsdf.rs:152 | A diffuse lobe with a mirror, and `wo = wi = up`: as written the pdf is `1/π`, while `pdf` gives `(1/π + 1)/2` |
| Bsdfs.SumFTransmissionZero | src/bsdf.rs:195-209 | No modelled lobe contains `TRANSMISSION`, so `f` is zero for every pair on opposite sides |
| Bsdfs.SumMatchingPdfBounds | src/bsdf.rs:229-237 | If each matching pdf is in `[0, hi]`, then the sum is in `[0, m·hi]` for `m` matches |
| Bsdfs.MeanMatchingPdfBounds | src/bsdf.rs:239-242 | The mean is 0 when nothing matches, non-negative always, and at most `hi` when every matching pdf is |
| Bsdfs.SampleFReportsChosenPdf | src/bsdf.rs:98-184 | The all-zero result with `NONE` when nothing matches or `wo.z == 0`, and the all-zero result with the lobe's flags when the lobe's sample has pdf 0. Otherwise the result carries the chosen lobe's flags; for a Lambertian chosen lobe the pdf is that lobe's own pdf at the sampled direction, which equals `Bsdf::pdf` when it is the only selected lobe; and a non-specular sample that crosses the surface has `f = 0` |
| LegacyBsdfs.LegacyBsdf.constructor | src/bsdf/mod.rs:13-23 | Starts empty; `ior` defaults to 1.0; both normals are the surface normal |
| LegacyBsdfs.LegacyBsdf.Add | src/bsdf/mod.rs:25-29 | Appends at the end with no capacity limit, keeps the earlier entries and returns itself |
| Interactions.SurfaceInteraction.constructor | src/surface_interaction.rs:11-24 | Stores the hit data; no BSDF is attached yet |
| Matte.MatteLobes | src/materials/matte.rs:26-28 | Exactly one Lambertian lobe with the reflectance colour |
| Matte.RoughnessIgnored | src/materials/matte.rs:22-31 | Roughness does not influence the lobes |
| Matte.ComputeScatteringFunctions | src/materials/matte.rs:23-31 | Replaces the interaction's BSDF with a fresh one holding only the matte lobe, with `ior` 1 and the surface normal |
| Plastic.PlasticLobesShape | src/materials/plastic.rs:33-43 | A Lambertian is added iff the diffuse colour is non-zero, and a dielectric `(1.0, 1.5)` mirror iff the specular colour is non-zero. The Lambertian comes first, and roughness is ignored |
| Plastic.ComputeScatteringFunctions | src/materials/plastic.rs:29-47 | Replaces the interaction's legacy BSDF with a fresh one holding exactly those lobes, ior 1.0, and both normals equal to the interaction's surface normal |
| Mirror.ComputeScatteringFunctions | src/materials/mirror.rs:21-30 | Replaces the interaction's BSDF with a fresh one holding exactly one no-op-Fresnel mirror lobe |
| Mirror.GetAlbedo | src/materials/mirror.rs:32-34 | The albedo is the mirror lobe's reflectance |
| Glass.GlassLobe | src/materials/glass.rs:25-30 | The appended lobe is a well-formed specular transmission `(1.0, 1.5, Radiance)` |
| Glass.ComputeScatteringFunctions | src/materials/glass.rs:22-33 | Reuses an existing BSDF (its lobes kept) or creates one on the interaction's normals and tangents with ior 1.0, then appends the glass lobe; it panics iff the reused BSDF is already full |
| Glass.GetAlbedo | src/materials/glass.rs:35-37 | The albedo is zero, whatever the colour |
| Samplers.FromStr | src/sampler.rs:16-22 | Never None; Sobol iff the name is `"sobol"`, Random otherwise |
| Samplers.SubPixelOffsetBounds | src/sampler.rs:146-147 | The corrected sub-pixel offset lies within half a pixel of the pixel centre |
| Samplers.SubPixelOffsetAsWrittenLeavesPixel | src/sampler.rs:110-111 | As written, `u = 0.5` and a pixel 0.01 wide give an offset of 0.495, far outside the half-pixel 0.005 |
| Samplers.SampleAt | src/sampler.rs:113-126 | Whatever the sub-pixel offset, the sample's ray starts at the camera, and its pixel position is `(x + p.x - 0.5, y + p.y - 0.5)` |
| Samplers.GetRandomSamples | src/sampler.rs:97-134 | Exactly `sample_num` samples, one per random point, all from the camera position, each displaced by the offset as written, `u - 0.5*pixel` |
| Samplers.GetSobolSamples | src/sampler.rs:136-168 | `min(sample_num, 10000)` samples, taken from the precomputed points in order, each displaced by `(u - 0.5)*pixel` |
| Samplers.GetSamples | src/sampler.rs:83-94 | Dispatches on the method alone: the random points with the as-written offset, or the Sobol points with the centred one |
| Samplers.SamplePositionInPixel | src/sampler.rs:125-147 | For points in the unit square, the Sobol offsets stay within half a pixel, and with either offset the pixel position lies within half a unit of the pixel's coordinates |
| MipMaps.New | src/textures/mip_map.rs:19-24 | Stores the image with the Black wrap method |
| MipMaps.Wrap | src/textures/mip_map.rs:29-30 | `u = x - floor(x)` lies in `[0, 1)` and differs from `x` by an integer |
| MipMaps.TexelIndex | src/textures/mip_map.rs:35-36 | The texel index is at most `n-1`, and for a coordinate in `[0, 1]` it does not exceed `c·n` |
| MipMaps.Channel | src/textures/mip_map.rs:43 | `byte/255` lies in `[0, 1]` |
| MipMaps.Lookup | src/textures/mip_map.rs:26-47 | Panics iff the image has no pixels (the `w - 1` underflow) |
| MipMaps.LookupInBounds | src/textures/mip_map.rs:26-47 | For a non-empty image, the lookup returns the in-bounds texel at the wrapped/clamped coordinates with each of its three channels divided by 255, all in `[0, 1]`. The `width` argument has no effect, and shifting `x` by a whole number changes nothing |
| MipMaps.WrapShift | src/textures/mip_map.rs:29-30 | The horizontal wrap is periodic with period 1 |
| MipMaps.RowMajorBound | src/textures/mip_map.rs:40 | An in-bounds texel's row-major index is below `w·h` |
| Triangles.Entry | src/objects/triangle.rs:66-69 | A vertex reads `buffer[3i..3i+3]` |
| Triangles.EntryLayout | src/objects/triangle.rs:59-107 | Index `3i+2` is in range iff `i` is below the entry count, and distinct vertices read disjoint offsets |
| Triangles.BoundingBox | src/objects/triangle.rs:333-351 | Every vertex lies in the box, `min < max` on each axis, `min` is some vertex's coordinate, and `max` is some vertex's coordinate plus 0.001 |
| Triangles.Accept | src/objects/triangle.rs:151-181 | Rejects mixed-sign edge values and a zero determinant; any accepted distance is `t_scaled/det`, at least `f64::EPSILON` and at most 1000; conversely, same-sign edge values with a non-zero determinant and `t_scaled/det` in that range are accepted with that distance |
| Triangles.QuotientSide | src/objects/triangle.rs:165-171 | A distance in `(0, 1000]` puts `t_scaled` on the determinant's side within 1000 times it, so the range tests pass it |
| Triangles.DistanceBound | src/objects/triangle.rs:165-171 | The two range tests on `t_scaled` bound `t_scaled/det` by 1000 |
| Triangles.NextAxis | src/objects/triangle.rs:129-130 | The axis following `kz` is a valid axis |
| Triangles.HitDistance | src/objects/triangle.rs:119-181 | A hit distance lies within `[f64::EPSILON, 1000]` |
| Triangles.Triangle.constructor | src/objects/triangle.rs:34-57 | Stores the looked-up vertices and normals, the materials and the light, and sets `node_index` to 0 |
| Triangles.Triangle.Bounds | src/objects/triangle.rs:333-351 | Every vertex lies in the triangle's box, which has positive extent on each axis |
| Triangles.Triangle.SetBhNodeIndex | src/objects/triangle.rs:354-356 | Sets the node index |
| Triangles.NodeIndexRoundTrip | src/objects/triangle.rs:353-361 | `bh_node_index` returns the last value passed to `set_bh_node_index` |
| Triangles.Triangle.TestIntersect | src/objects/triangle.rs:119-181 | The permute–shear–edge computation returns the specification `HitDistance`, which lies within `[f64::EPSILON, 1000]` |
| Triangles.AcceptEdges | src/objects/triangle.rs:151-181 | The reject cascade and the final division return exactly `Accept` over the edge values and the scaled distance |
| Triangles.FacingTriangleHitAtTwo | src/objects/triangle.rs:403-423 | The ray from `(0,0,-2)` along `+z` hits the unit-square-half triangle at distance 2 |

## Left out

- Floating point is modelled as `real`. This leaves out rounding, NaN, infinities and IEEE division by zero, and with them the source's `f32` tile counts (`ceil(W as f32 / bw as f32)`), modelled as the exact integer ceiling. Where the source would divide by a zero z component, the model requires it to be non-zero:
  - the leaf `sample_f` and `abs_cos_theta(wi)`;
  - the shear in `test_intersect`;
  - `eta_t`.
- u32 overflow is not modelled. This covers `x + W*y` in `get_pixel_index`, the pixel count in `Film::new`, and `rays_done` (src/renderer.rs:163). Integers are unbounded. The float-to-integer casts of the splat centre are modelled (`Films.CastPixel`), and so is the finding they lead to, below.
- Films.Film.constructor: requires a non-zero bucket width and height. With a zero size and a non-empty image, the source's `W as f32 / 0.0` is infinite and `.ceil() as u32` saturates to `u32::MAX` (src/film.rs:184-185), so the loops push about 2^64 buckets and run out of memory.
- Renderer.WorkQueue.constructor: requires a non-zero bucket width and height, for the same reason: the tile loops (src/renderer.rs:59-60) would push about 2^64 tiles.
- Films.Film.SplatCell: compares the cell with the image size directly. The source casts the size `as i32` (src/film.rs:118), which differs only for images 2^31 or more pixels wide or high.
- Renderer.RaysDone: requires the tile start to lie inside the image, as every queued tile does (proved in `ClaimedTile`). The source would underflow otherwise.
- The `dbg!(sample)` debug print in `get_random_samples` (src/sampler.rs:128) is output only and is not modelled.
- Tone mapping is not modelled: the gamma `powf`, the `as u8` conversion and `put_pixel`, both in `update_image_buffer` (src/film.rs:131-144) and in the render loop.
- Threads, `Mutex`/`RwLock`, the `STATS` and `IMAGE_BUFFER` globals and the per-thread loop of `render` are concurrency and are not modelled. Only the tile clamp and ray count are kept.
- Random choices become parameters:
  - `thread_rng` in `get_work`;
  - the lobe `choose` and the remapped sample in `Bsdf::sample_f`;
  - the disk sample of `get_cosine_weighted_in_hemisphere`;
  - the random points of `get_random_samples`;
  - the jittered directions of `get_rays_at` (src/renderer.rs:222-237), which are the `direction` parameter of `GetRaysAt`;
  - the precomputed Sobol points.
- Bsdfs.Bsdf.SampleF: the `sample_u` argument is unused by the source and is not modelled. The remapped sample is a parameter, without the `[ε, 1-ε]` clamp.
- Numeric kernels are opaque function parameters with only the properties the core relies on:
  - `sqrt`, `normalize`;
  - Fresnel `evaluate`, `refract`, `face_forward`;
  - `shift_cos_in`;
  - the rough lobes (Oren–Nayar, microfacet).
- `Sampler::new` is not modelled: its field-of-view trigonometry. The pixel sizes and the ray directions come from parameters.
- Triangles.Triangle.TestIntersect: takes the dominant axis `kz` as a parameter; `max_dimension_vec_3` is not modelled. The barycentrics, UVs, shading frame and error bounds after line 181 are not modelled.
- Ray `t_max`: the source hard-codes 1000, and so does the model (`MaxDistance`).
- Shading of a hit (`material.get_surface_color`) is a parameter of `Trace`; the Whitted materials and the path integrator are not part of this model.
- The BVH traversal is a parameter: the scene queries take the candidate list it returns.
- `Bsdf` is `Copy` in the source; the model uses a class reference. Glass's `si.bsdf.unwrap_or(...)` works on a copy that is stored back, which the model expresses by updating the same object.
- The legacy `BSDF` stores the `Bxdf` enum rather than the empty legacy `BXDF` struct, because the matte and plastic builders add enum lobes to it.
- `SurfaceInteraction` carries the fields of both revisions of the type: `surface_normal` for the legacy BSDF, and the normals and tangents for `Bsdf`.
- `MatteMaterial::new`, `MirrorMaterial::new` and `GlassMaterial::new` are datatype constructors, which store their fields unchanged.
- Lights, `main`, the camera and denoising are not part of this model.

## Findings

The operations follow the code as written (`Bsdf.SampleF`, `Film.SplatSample`, `GetRandomSamples`); each corrected definition stands beside them with its intended property proved.

| source | as written | input that shows it | evidently intended | confidence | as-written member | corrected member |
|---|---|---|---|---|---|---|
| src/bsdf.rs:152 | The loop over the other matching lobes adds `bxdf.pdf(wo, wi)`, the chosen lobe's pdf, instead of `bxdf_loop.pdf(wo, wi)`. The averaged pdf then equals the chosen lobe's own pdf | A diffuse lobe plus a no-op-Fresnel mirror, flags `ALL`, chosen lobe 0, `wo = wi = (0,0,1)`: the result is `1/π` instead of `(1/π + 1)/2` | The mean pdf over all matching lobes, as `Bsdf::pdf` computes | not executed | Bsdfs.SamplePdfAsWrittenCounterexample | Bsdfs.SamplePdfIsMean |
| src/film.rs:105-118 | `(x + 0.5).floor() as u32` saturates negative locations to 0, and the bounds test then admits cells of the clamped pixel | Location x = -1.2 (nearest pixel -1) in a 4-pixel row: the centre cell (weight 1.0) lands on pixel 0 and the right cell on pixel 1, two pixels from -1 | Splat onto the in-image pixels within ±1 of the nearest pixel only; the casts agree with that whenever the nearest pixel is in `[0, 2^31)` (`Films.SplatAxisExactInRange`). The defect is latent for the samplers modelled here: their pixel positions `x + u - 0.5` (src/sampler.rs:125, 161) are at least -0.5 | not executed | Films.SplatAxisAsWrittenLeavesNeighbourhood | Films.SplatAxisStaysInNeighbourhood |
| src/sampler.rs:110-111 | The offset is `u - 0.5 * pixel_width`, so a `u` in `[0, 1)` is used as a world-space offset of up to one unit | `u = 0.5`, pixel width 0.01: the offset is 0.495, far beyond the half-pixel 0.005 | `(u - 0.5) * pixel_width`, as the Sobol path computes at lines 146-147 | not executed | Samplers.SubPixelOffsetAsWrittenLeavesPixel | Samplers.SubPixelOffsetBounds |
