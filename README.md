# CustomVerticalGradientUIMesh, modelled in Dafny

`CustomVerticalGradientUIMesh` is a Unity UI graphic. It draws a vertical colour gradient as a stack of quads, one for each adjacent pair of gradient points, and can texture the stack with a sprite.

The model covers the two pieces of logic the component owns.

- **The gradient quad-stack builder.**
  - `SetGradientPoints` is the guarded setter.
  - `OnPopulateMesh` clears the vertex buffer and walks the points from the last to index 1.
  - `AddQuad` appends four vertices and two triangles per step.
  - The corner and UV formulas include the `Mathf.Lerp` remap into the sprite's outer UV rectangle.
- **Sprite assignment and tracking of textureless sprites.**
  - The `sprite` setter has two skip flags.
  - `TrackSprite`, `OnEnable` and `OnDisable` manage tracking.
  - The process-wide tracked list is changed by `TrackImage`, `UnTrackImage`, and the reverse filter `RebuildImage`, which runs when a sprite atlas is registered.
  - `mainTexture` has a fallback chain.

Modules:

- `Engine` holds the engine values the component uses:
  - vectors and colours;
  - `Mathf.Lerp` (with its clamp);
  - the `Color` to `Color32` conversion a `UIVertex` performs (clamp, scale by 255, round half to even);
  - `Vector2`'s approximate `==` next to its exact `Equals`;
  - sprites, textures and materials as values that carry an identity.
- `VertexBuffer` is the `VertexHelper` the builder fills: a vertex sequence, a triangle sequence, `Clear`, `AddVert` and `AddTriangle`.
- `GradientMesh` defines, as functions, what the builder leaves in the buffer (`StackVertices`, `StackTriangles`). Its lemmas state the counts, the order in which points are consumed, the winding, the geometry, the colours and the UVs.
- `ListOps` holds the .NET `List<T>` operations the tracked list uses:
  - `IndexOf`;
  - `RemoveAt`;
  - `Remove`, which drops the first occurrence only;
  - the order-keeping filter that a backward `RemoveAt` loop performs.
- `GradientUIMesh` holds two classes:
  - `CustomVerticalGradientUIMesh`, the component; both halves of the C# partial class are in this one class.
  - `TexturelessImageRegistry`, which holds the static list, the `s_Initialized` flag and the number of `RebuildImage` subscriptions. Every component holds a constant reference to one shared registry.
  - The imperative members are proved against the `GradientMesh` and `ListOps` functions. `OnPopulateMesh` leaves exactly `StackVertices` and `StackTriangles`. `RebuildImage` leaves `Without(old list, bindable entries)`.

The registry keeps two invariants:

- `Valid`: it is subscribed exactly once after the first track, and every entry belongs to it.
- `MembersTracked`: every entry has `m_Tracked` set.

Behaviour the model follows from the code:

- With no sprite, the outer UV rectangle is `Vector4.zero` (`CustomVerticalGradientUIMesh.Gradient.cs:103`). Every UV is then (0, 0); the remap is not the identity (`NoSpriteUVsAtOrigin`).
- `TrackSprite` only appends, and `OnDisable` removes only the first occurrence. A component tracked twice stays on the list after it is disabled (`TrackedTwiceOutlivesDisable`). `m_Tracked` is never cleared.
- The editor default `Reset` lists position 1 before position 0. The loop starts from the last point, so the one quad it draws starts at the bottom edge (`DefaultPointsFillRect`).

## Model

| member | source | states |
|---|---|---|
| Engine.Lerp | Assets/CustomVertex/Scripts/CustomVerticalGradientUIMesh.Gradient.cs:118-121 | Mathf.Lerp is a + (b - a) * Clamp01(t): the parameter is clamped to [0, 1] before interpolating |
| Engine.LerpWithin | Assets/CustomVertex/Scripts/CustomVerticalGradientUIMesh.Gradient.cs:118-121 | because of the clamp, the remapped coordinate always lies between the two ends of the outer rectangle's side, whatever the position |
| Engine.Channel | Assets/CustomVertex/Scripts/CustomVerticalGradientUIMesh.Gradient.cs:64-79 | storing a Color channel into UIVertex.color saturates (at or below 0 gives byte 0, at or above 1 gives byte 255) and otherwise rounds to a nearest byte |
| Engine.RoundHalfEven | Assets/CustomVertex/Scripts/CustomVerticalGradientUIMesh.Gradient.cs:64-79 | the rounding in the Color32 conversion picks an integer within one half of the value, and the even one on a tie |
| Engine.ToColor32 | Assets/CustomVertex/Scripts/CustomVerticalGradientUIMesh.Gradient.cs:64-79 | storing a Color into UIVertex.color gives each channel a nearest byte to the channel saturated to [0, 1] and scaled by 255; white becomes (255, 255, 255, 255) |
| Engine.ApproxEqual | Assets/CustomVertex/Scripts/CustomVerticalGradientUIMesh.cs:34 | Vector2's == is squared distance below kEpsilon squared (kEpsilon = 1e-5): equal vectors compare equal, and vectors that compare equal differ by less than kEpsilon on each axis |
| Engine.WholeSizeApproxZeroIsExact | Assets/CustomVertex/Scripts/CustomVerticalGradientUIMesh.cs:34 | Vector2's approximate == against zero, used for the skip-layout flag over a null sprite, agrees with exact equality for whole-pixel sizes |
| GradientMesh.OuterUV | Assets/CustomVertex/Scripts/CustomVerticalGradientUIMesh.Gradient.cs:103 | the outer UV rectangle is the sprite's when there is one and Vector4.zero when there is none |
| GradientMesh.BottomLeft | Assets/CustomVertex/Scripts/CustomVerticalGradientUIMesh.Gradient.cs:92-97 | the lower-left corner is -pivot scaled by (width, height) |
| GradientMesh.StackVertices | Assets/CustomVertex/Scripts/CustomVerticalGradientUIMesh.Gradient.cs:108-124 | the vertices the loop leaves: the quads of the pairs (points[i], points[i-1]) for i from the last index down to 1, in that order; empty exactly for fewer than two points |
| GradientMesh.StackTriangles | Assets/CustomVertex/Scripts/CustomVerticalGradientUIMesh.Gradient.cs:84-85 | the triangles the loop leaves for N points, two per quad numbered from that quad's first vertex; empty exactly for fewer than two points, and otherwise opening with (0, 2, 1) and (3, 2, 0) |
| GradientMesh.StackStep | Assets/CustomVertex/Scripts/CustomVerticalGradientUIMesh.Gradient.cs:108-124 | one loop step at index i appends the quad of (points[i], points[i-1]) after the quads of points[i..], and two triangles numbered after the earlier quads |
| GradientMesh.StackVerticesLength | Assets/CustomVertex/Scripts/CustomVerticalGradientUIMesh.Gradient.cs:108-124 | N points give 4 * max(N - 1, 0) vertices; 0 or 1 point gives none |
| GradientMesh.StackTrianglesLength | Assets/CustomVertex/Scripts/CustomVerticalGradientUIMesh.Gradient.cs:108-124 | N points give 2 * max(N - 1, 0) triangles |
| GradientMesh.StackQuadAt | Assets/CustomVertex/Scripts/CustomVerticalGradientUIMesh.Gradient.cs:108-111 | quad k of the buffer is built from points[N-1-k] (first) and points[N-2-k] (second): the points are consumed from the end toward index 0 |
| GradientMesh.StackTriangleAt | Assets/CustomVertex/Scripts/CustomVerticalGradientUIMesh.Gradient.cs:84-85 | triangles 2k and 2k+1 are (4k, 4k+2, 4k+1) and (4k+3, 4k+2, 4k): the fixed winding over quad k's vertices |
| GradientMesh.StackTrianglesWithin | Assets/CustomVertex/Scripts/CustomVerticalGradientUIMesh.Gradient.cs:84-85 | every triangle index is below the final vertex count |
| GradientMesh.PairQuadShape | Assets/CustomVertex/Scripts/CustomVerticalGradientUIMesh.Gradient.cs:112-123 | one step's four vertices: positions (bl.x, bl.y+p1 h), (bl.x+w, bl.y+p1 h), (bl.x+w, bl.y+p2 h), (bl.x, bl.y+p2 h); u is outer.x on v0 and v3 and outer.z on v1 and v2; v is Lerp(outer.y, outer.w, p); v0 and v1 take the first point's colour, v2 and v3 the second's |
| GradientMesh.StackVertexAt | Assets/CustomVertex/Scripts/CustomVerticalGradientUIMesh.Gradient.cs:112-113 | quad k of the whole buffer has that shape for its pair; positions are not clamped, so equal positions give a zero-height quad |
| GradientMesh.StackUVsWithinOuter | Assets/CustomVertex/Scripts/CustomVerticalGradientUIMesh.Gradient.cs:118-121 | every vertex's uv lies inside the outer UV rectangle, for any positions |
| GradientMesh.NoSpriteUVsAtOrigin | Assets/CustomVertex/Scripts/CustomVerticalGradientUIMesh.Gradient.cs:103 | with no sprite every uv of the buffer is (0, 0) |
| GradientMesh.PairQuadUVs | Assets/CustomVertex/Scripts/CustomVerticalGradientUIMesh.Gradient.cs:114-121 | one quad's uvs are (outer.x, v1), (outer.z, v1), (outer.z, v2), (outer.x, v2), with v1 and v2 the lerped positions |
| GradientMesh.UVRemapIdentityAndMidpoint | Assets/CustomVertex/Scripts/CustomVerticalGradientUIMesh.Gradient.cs:114-121 | for positions in [0, 1], the full-texture rectangle (0,0,1,1) leaves uv corners (0, p1) and (1, p2) unchanged; for any rectangle a position of one half maps to the middle of [outer.y, outer.w] |
| GradientMesh.UVRemapClampsOutside | Assets/CustomVertex/Scripts/CustomVerticalGradientUIMesh.Gradient.cs:112-121 | outside [0, 1] the v coordinate is clamped to the nearer edge (0 below, 1 above, with the rectangle (0,0,1,1)) while the vertex position bl.y + p * h is not |
| GradientMesh.DefaultPointsFillRect | Assets/CustomVertex/Scripts/CustomVerticalGradientUIMesh.Gradient.cs:23-40 | the editor default draws exactly one white quad covering the rect, starting at its bottom edge, with the outer rectangle's corners as uvs and triangles (0,2,1), (3,2,0) |
| ListOps.IndexOf | Assets/CustomVertex/Scripts/CustomVerticalGradientUIMesh.cs:163 | the index List.Remove looks up is the first occurrence, and -1 exactly when the element is absent |
| ListOps.RemoveAt | Assets/CustomVertex/Scripts/CustomVerticalGradientUIMesh.cs:145 | List.RemoveAt drops exactly one element and shifts the later ones down by one, keeping order |
| ListOps.RemoveFirst | Assets/CustomVertex/Scripts/CustomVerticalGradientUIMesh.cs:163 | List.Remove leaves a list without x unchanged; otherwise it removes one occurrence (the first), so the count of x drops by exactly one |
| ListOps.WithoutCount | Assets/CustomVertex/Scripts/CustomVerticalGradientUIMesh.cs:139-147 | the filter removes every occurrence of a dropped entry and keeps every occurrence of any other |
| ListOps.WithoutWithin | Assets/CustomVertex/Scripts/CustomVerticalGradientUIMesh.cs:139-147 | what remains after the filter comes from the list and is not dropped |
| ListOps.WithoutAppend | Assets/CustomVertex/Scripts/CustomVerticalGradientUIMesh.cs:139-147 | the filter distributes over concatenation, so survivors keep their relative order |
| ListOps.WithoutStep | Assets/CustomVertex/Scripts/CustomVerticalGradientUIMesh.cs:139-146 | at index i of a backward walk, removing a dropped entry (or keeping a kept one) extends the filtered suffix by one position |
| GradientUIMesh.BindableIn | Assets/CustomVertex/Scripts/CustomVerticalGradientUIMesh.cs:142 | an entry is dropped exactly when its sprite is non-null and the atlas can bind it |
| GradientUIMesh.TexturelessImageRegistry.constructor | Assets/CustomVertex/Scripts/CustomVerticalGradientUIMesh.cs:134-135 | the process starts with an empty tracked list, s_Initialized false and no subscription |
| GradientUIMesh.TexturelessImageRegistry.TrackImage | Assets/CustomVertex/Scripts/CustomVerticalGradientUIMesh.cs:150-159 | subscribes RebuildImage only on the first call (one subscription in all), then appends the component, even if it is already listed |
| GradientUIMesh.TexturelessImageRegistry.UnTrackImage | Assets/CustomVertex/Scripts/CustomVerticalGradientUIMesh.cs:161-164 | the list becomes List.Remove of the old list: the first occurrence only |
| GradientUIMesh.TexturelessImageRegistry.RemoveIfBindable | Assets/CustomVertex/Scripts/CustomVerticalGradientUIMesh.cs:141-146 | one iteration of the reverse loop keeps the loop's invariant: the list is the unvisited prefix followed by the filtered visited suffix, and each component's dirty count has grown by its dropped occurrences in that suffix |
| GradientUIMesh.TexturelessImageRegistry.RemoveBindable | Assets/CustomVertex/Scripts/CustomVerticalGradientUIMesh.cs:139-147 | the reverse RemoveAt loop leaves the old list without its bindable entries, in their order, and calls SetAllDirty once per removed occurrence; kept components are not touched |
| GradientUIMesh.TexturelessImageRegistry.RebuildImage | Assets/CustomVertex/Scripts/CustomVerticalGradientUIMesh.cs:137-148 | the same (its loop is RemoveBindable), and the single subscription and every remaining entry's tracked flag are preserved |
| GradientUIMesh.CustomVerticalGradientUIMesh.constructor | Assets/CustomVertex/Scripts/CustomVerticalGradientUIMesh.cs:60 | a new component has no sprite, is not tracked and has not been marked dirty |
| GradientUIMesh.CustomVerticalGradientUIMesh.Reset | Assets/CustomVertex/Scripts/CustomVerticalGradientUIMesh.Gradient.cs:23-40 | the editor default is a new two-point array: position 1 then position 0, both white |
| GradientUIMesh.CustomVerticalGradientUIMesh.SetGradientPoints | Assets/CustomVertex/Scripts/CustomVerticalGradientUIMesh.Gradient.cs:44-53 | a null array or fewer than two points changes nothing and marks nothing dirty; otherwise exactly that array (not a copy) is stored and the vertices are marked dirty once |
| GradientUIMesh.CustomVerticalGradientUIMesh.AddQuad | Assets/CustomVertex/Scripts/CustomVerticalGradientUIMesh.Gradient.cs:56-86 | appends the four vertices and two triangles numbered from the vertex count on entry; earlier vertices and triangles are unchanged, and in-range triangle indices stay in range |
| GradientUIMesh.CustomVerticalGradientUIMesh.OnPopulateMesh | Assets/CustomVertex/Scripts/CustomVerticalGradientUIMesh.Gradient.cs:88-125 | clears the buffer, then leaves exactly StackVertices and StackTriangles of the stored points: 4 max(N-1, 0) vertices, 2 max(N-1, 0) triangles, every index in range |
| GradientUIMesh.CustomVerticalGradientUIMesh.MainTexture | Assets/CustomVertex/Scripts/CustomVerticalGradientUIMesh.cs:71-86 | a sprite's texture when there is a sprite; otherwise the material's main texture if both exist, else the white texture; the result is null exactly for a textureless sprite |
| GradientUIMesh.CustomVerticalGradientUIMesh.TrackSprite | Assets/CustomVertex/Scripts/CustomVerticalGradientUIMesh.cs:106-113 | appends the component and sets m_Tracked exactly when the sprite is non-null with a null texture; otherwise changes nothing; never removes |
| GradientUIMesh.CustomVerticalGradientUIMesh.SetSprite | Assets/CustomVertex/Scripts/CustomVerticalGradientUIMesh.cs:15-42 | assigning the current value (or null over null) changes nothing. Replacing a sprite: skip layout iff the old size Equals the new one (zero for null), and skip material iff the textures are the same (null for null). Assigning over null: skip layout iff the new size == zero (approximate), and skip material iff the new texture is null. Any change marks all dirty once and tracks a textureless new sprite |
| GradientUIMesh.CustomVerticalGradientUIMesh.OnEnable | Assets/CustomVertex/Scripts/CustomVerticalGradientUIMesh.cs:115-119 | enabling tracks the component iff its sprite is textureless, subscribing RebuildImage only if no earlier track did; an existing subscription is kept |
| GradientUIMesh.CustomVerticalGradientUIMesh.OnDisable | Assets/CustomVertex/Scripts/CustomVerticalGradientUIMesh.cs:121-127 | a tracked component loses its first occurrence on the list; an untracked one is not on the list and nothing changes; m_Tracked stays as it is |
| GradientUIMesh.TrackedTwiceOutlivesDisable | Assets/CustomVertex/Scripts/CustomVerticalGradientUIMesh.cs:121-127 | a component given two textureless sprites in turn is listed twice and is still listed once after OnDisable |

## Left out

- `pixelsPerUnit` and `SetNativeSize` (`CustomVerticalGradientUIMesh.cs:44-57`, `92-104`): float division against canvas and rect-transform state. They play no part in the mesh or the tracking.
- `OnRectTransformDimensionsChange` and `OnDidApplyAnimationProperties`, which only forward dirty marks to the engine. `SetMaterialDirty` and `SetRaycastDirty` are left out too. `SetAllDirty` and `SetVerticesDirty` are modelled as counters only. How the engine consumes the dirty marks is engine code, not part of this model.
- IEEE float rounding: coordinates, positions and colour channels are `real`. Only the rounding of the `Color32` conversion is written out.
- `DataUtility.GetOuterUV` is the sprite's `outerUV` field. `SpriteAtlas.CanBindTo` is the predicate parameter `canBindTo`. The subscription to `SpriteAtlasManager.atlasRegistered` is the counter `subscriptions`, so the callback is invoked by calling `RebuildImage` directly.
- Unity's object identity and "destroyed means null": sprites, textures and materials are values with an id. `None` stands for null, and two assets are the same object exactly when their values are equal.
- `Graphic.material` (with its default-material fallback) is the field `material`.
- `UIVertex` keeps only position, `uv0` and colour, and positions are 2-D (the z coordinate is always 0). `AddQuad` also reads the rect width and height into locals it never uses (`CustomVerticalGradientUIMesh.Gradient.cs:58-59`).
- `_gradientPoints` is a non-null array. The component's serializer always supplies one; a null array, which would make `OnPopulateMesh` throw, is not modelled.
- Sprite fields other than rect size, texture and outer UV are not modelled.
- A sprite's texture never changes in the model: atlas binding, through which a textureless sprite gets its texture when its atlas registers, is engine code outside the model. A component that `RebuildImage` has dropped therefore still reads as textureless: `MainTexture` stays null, and a later `OnEnable` or sprite assignment would track it again. In the program it draws with the atlas texture, and `TrackSprite` does nothing.
- The `base.OnEnable()`, `base.OnDisable()` and `base.Reset()` calls (`CustomVerticalGradientUIMesh.cs:117`, `CustomVerticalGradientUIMesh.cs:123`, `CustomVerticalGradientUIMesh.Gradient.cs:25`) are engine plumbing and are not modelled. The dirty counters count only the calls this component's own code makes: the `SetAllDirty` at the end of `Graphic.OnEnable`, and the `SetVerticesDirty` inside `Graphic.SetAllDirty`, are not counted.
- The two skip flags are the values the `sprite` setter computes for the following `SetAllDirty`; how the engine uses them is not modelled.
- ListOps.Without: its own contract states only that filtering never lengthens the list. What it keeps and drops is stated by `WithoutCount`, `WithoutWithin` and `WithoutAppend`.
