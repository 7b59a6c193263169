// The component CustomVerticalGradientUIMesh: the gradient half (stored points,
// the guarded setter, the quad-stack builder) and the sprite half (the sprite
// setter with its skip flags, tracking of sprites whose atlas texture is not yet
// loaded, and the texture it draws with).
//
// The C# class keeps its tracked list and its "subscribed" flag in static fields.
// Here they live in one TexturelessImageRegistry object that every component
// refers to, so that the verifier can frame them.
module GradientUIMesh {
  import opened Engine
  import opened VertexBuffer
  import opened GradientMesh
  import opened ListOps

  /** A sprite that must wait for its atlas: present, but with a null texture. */
  predicate Textureless(s: Option<Sprite>)
  {
    s.Some? && s.value.texture.None?
  }

  /** An entry the atlas-registered callback drops: its sprite is non-null and the
      registered atlas can bind it (SpriteAtlas.CanBindTo, given as canBindTo). */
  predicate Bindable(g: CustomVerticalGradientUIMesh, canBindTo: Sprite -> bool)
    reads g`sprite
  {
    g.sprite.Some? && canBindTo(g.sprite.value)
  }

  /** The entries of s that the atlas-registered callback drops. */
  ghost function BindableIn(s: seq<CustomVerticalGradientUIMesh>, canBindTo: Sprite -> bool): (d: set<CustomVerticalGradientUIMesh>)
    reads (set g | g in s)`sprite
    ensures forall g :: g in d ==> g in s
    ensures forall g :: g in s ==> (g in d <==> Bindable(g, canBindTo))
  {
    set g | g in s && Bindable(g, canBindTo)
  }

  /** The process-wide state of the component: m_TrackedTexturelessImages,
      s_Initialized, and the handlers added to SpriteAtlasManager.atlasRegistered. */
  class TexturelessImageRegistry {
    var images: seq<CustomVerticalGradientUIMesh>
    var initialized: bool
    var subscriptions: nat

    constructor ()
      ensures Valid() && images == []
      ensures !initialized && subscriptions == 0
    {
      images, initialized, subscriptions := [], false, 0;
    }

    /** RebuildImage is subscribed exactly once, from the moment initialized is set;
        every tracked entry belongs to this registry. */
    ghost predicate Valid()
      reads this
    {
      && subscriptions == (if initialized then 1 else 0)
      && forall g :: g in images ==> g.registry == this
    }

    /** Every entry of the list has its m_Tracked flag set. */
    ghost predicate MembersTracked()
      reads this, (set g | g in images)`tracked
    {
      forall g :: g in images ==> g.tracked
    }

    /** TrackImage: subscribes RebuildImage on the first call only, then always appends g,
        even when g is already in the list. */
    method TrackImage(g: CustomVerticalGradientUIMesh)
      requires Valid() && g.registry == this
      modifies this
      ensures Valid()
      ensures images == old(images) + [g]
      ensures initialized
      ensures old(initialized) ==> subscriptions == old(subscriptions)
    {
      if !initialized {
        subscriptions := subscriptions + 1;
        initialized := true;
      }
      images := images + [g];
    }

    /** UnTrackImage: List.Remove, which drops the first occurrence of g only. */
    method UnTrackImage(g: CustomVerticalGradientUIMesh)
      requires Valid()
      modifies this`images
      ensures Valid()
      ensures images == RemoveFirst(old(images), g)
    {
      var k := IndexOf(images, g);
      if k != -1 {
        images := RemoveAt(images, k);
      }
    }

    /** One step of RebuildImage at index i of the list: the entry there, g, is removed and
        marked fully dirty when it is Bindable, and left alone otherwise. Stated against
        the list the walk started from (before), the entries it drops (drop) and the
        dirty counts it started from (counts). */
    method RemoveIfBindable(i: int, g: CustomVerticalGradientUIMesh, canBindTo: Sprite -> bool,
                            ghost before: seq<CustomVerticalGradientUIMesh>, ghost drop: set<CustomVerticalGradientUIMesh>,
                            ghost counts: map<CustomVerticalGradientUIMesh, nat>)
      requires 0 <= i < |before| && before[i] == g && (g in drop <==> Bindable(g, canBindTo))
      requires images == before[..i + 1] + Without(before[i + 1..], drop)
      requires forall x :: x in before ==>
        x in counts && x.allDirtyCount == counts[x] + (if x in drop then multiset(before[i + 1..])[x] else 0)
      modifies this`images, g`allDirtyCount
      ensures images == before[..i] + Without(before[i..], drop)
      ensures forall x :: x in before ==>
        x.allDirtyCount == counts[x] + (if x in drop then multiset(before[i..])[x] else 0)
    {
      WithoutStep(before, i, drop, images);
      CountStep(before, i);
      if g.sprite.Some? && canBindTo(g.sprite.value) {
        g.SetAllDirty();
        images := RemoveAt(images, i);
      }
      forall x | x in before
        ensures x.allDirtyCount == counts[x] + (if x in drop then multiset(before[i..])[x] else 0)
      {
        assert x.allDirtyCount == old(x.allDirtyCount) + (if x == g && g in drop then 1 else 0);
      }
    }

    /** The loop of RebuildImage: walks the list from the last index to the first and
        removes each entry whose sprite the registered atlas can bind, marking it fully
        dirty. The list keeps the other entries in their order, and each dropped component
        is marked dirty once per occurrence. */
    method RemoveBindable(canBindTo: Sprite -> bool)
      modifies this`images, (set g | g in images)`allDirtyCount
      ensures images == Without(old(images), old(BindableIn(images, canBindTo)))
      ensures forall g :: g in old(images) ==>
        g.allDirtyCount == old(g.allDirtyCount) + (if Bindable(g, canBindTo) then multiset(old(images))[g] else 0)
    {
      ghost var before := images;
      ghost var drop := BindableIn(before, canBindTo);
      ghost var counts := map x | x in before :: x.allDirtyCount;
      var i := |images| - 1;
      while i >= 0
        invariant -1 <= i < |before|
        invariant images == before[..i + 1] + Without(before[i + 1..], drop)
        invariant forall x :: x in before ==>
          x in counts && x.allDirtyCount == counts[x] + (if x in drop then multiset(before[i + 1..])[x] else 0)
        decreases i
      {
        var g := images[i];
        assert g == before[i] by { SliceStep(before, i, Without(before[i + 1..], drop)); }
        RemoveIfBindable(i, g, canBindTo, before, drop, counts);
        i := i - 1;
      }
      assert before[..0] == [] && before[0..] == before;
      forall x | x in before
        ensures x.allDirtyCount == old(x.allDirtyCount) + (if Bindable(x, canBindTo) then multiset(before)[x] else 0)
      {
        assert counts[x] == old(x.allDirtyCount);
        assert x in drop <==> Bindable(x, canBindTo);
      }
    }

    /** RebuildImage, the handler subscribed to SpriteAtlasManager.atlasRegistered: the
        tracked list loses exactly its Bindable entries, and those components are marked
        fully dirty. The subscription and the tracked flags are untouched. Its reverse
        loop is RemoveBindable, one iteration of which is RemoveIfBindable; they are kept
        apart so that each proof stays small, and this method adds only the registry
        invariants, which follow from RemoveBindable's frame. */
    method RebuildImage(canBindTo: Sprite -> bool)
      requires Valid()
      modifies this`images, (set g | g in images)`allDirtyCount
      ensures Valid()
      ensures images == Without(old(images), old(BindableIn(images, canBindTo)))
      ensures forall g :: g in old(images) ==>
        g.allDirtyCount == old(g.allDirtyCount) + (if Bindable(g, canBindTo) then multiset(old(images))[g] else 0)
      ensures old(MembersTracked()) ==> MembersTracked()
    {
      ghost var before := images;
      ghost var drop := BindableIn(images, canBindTo);
      RemoveBindable(canBindTo);
      WithoutWithin(before, drop);
    }
  }

  class CustomVerticalGradientUIMesh {
    /** _gradientPoints; the serializer never leaves it null. */
    var gradientPoints: array<GradientPoint>
    /** m_Sprite */
    var sprite: Option<Sprite>
    /** Graphic.material, as read by mainTexture. */
    var material: Option<Material>
    /** Graphic.m_SkipLayoutUpdate and Graphic.m_SkipMaterialUpdate */
    var skipLayoutUpdate: bool
    var skipMaterialUpdate: bool
    /** m_Tracked: set once this component has been added to the tracked list. */
    var tracked: bool
    /** How often this component's own code has called SetVerticesDirty and SetAllDirty;
        the calls the engine makes for it (Graphic.OnEnable, and the SetVerticesDirty
        inside Graphic.SetAllDirty) are not counted. */
    var verticesDirtyCount: nat
    var allDirtyCount: nat
    /** The process-wide tracked-image state. */
    const registry: TexturelessImageRegistry

    constructor (registry: TexturelessImageRegistry)
      ensures this.registry == registry
      ensures fresh(gradientPoints) && gradientPoints.Length == 0
      ensures sprite == None && material == None && !tracked
      ensures verticesDirtyCount == 0 && allDirtyCount == 0
    {
      this.registry := registry;
      gradientPoints := new GradientPoint[0];
      sprite, material := None, None;
      skipLayoutUpdate, skipMaterialUpdate := false, false;
      tracked := false;
      verticesDirtyCount, allDirtyCount := 0, 0;
    }

    /** Graphic.SetAllDirty, counted. */
    method SetAllDirty()
      modifies this`allDirtyCount
      ensures allDirtyCount == old(allDirtyCount) + 1
    {
      allDirtyCount := allDirtyCount + 1;
    }

    /** Graphic.SetVerticesDirty, counted. */
    method SetVerticesDirty()
      modifies this`verticesDirtyCount
      ensures verticesDirtyCount == old(verticesDirtyCount) + 1
    {
      verticesDirtyCount := verticesDirtyCount + 1;
    }

    /** The editor-only Reset: two white points, position 1 then position 0. */
    method Reset()
      modifies this`gradientPoints
      ensures fresh(gradientPoints) && gradientPoints[..] == DefaultPoints
    {
      gradientPoints := new GradientPoint[2][GradientPoint(1.0, White), GradientPoint(0.0, White)];
    }

    /** SetGradientPoints: a null array or one with fewer than two points is ignored;
        otherwise the array itself (not a copy) is stored and the vertices marked dirty. */
    method SetGradientPoints(points: array?<GradientPoint>)
      modifies this`gradientPoints, this`verticesDirtyCount
      ensures points == null || points.Length < 2 ==>
        gradientPoints == old(gradientPoints) && verticesDirtyCount == old(verticesDirtyCount)
      ensures points != null && points.Length >= 2 ==>
        gradientPoints == points && verticesDirtyCount == old(verticesDirtyCount) + 1
    {
      if points == null || points.Length < 2 {
        return;
      }
      gradientPoints := points;
      SetVerticesDirty();
    }

    /** AddQuad: appends the quad's four vertices and its two triangles, numbered from the
        vertex count found on entry; nothing already in the buffer changes, so a buffer
        whose triangles index its vertices keeps that property. */
    method AddQuad(vh: VertexHelper, corner1: Vec2, corner2: Vec2, uvCorner1: Vec2, uvCorner2: Vec2,
                   clrCorner1: Color, clrCorner2: Color)
      modifies vh
      ensures vh.verts == old(vh.verts) + QuadVertices(corner1, corner2, uvCorner1, uvCorner2, clrCorner1, clrCorner2)
      ensures vh.tris == old(vh.tris) + QuadTriangles(|old(vh.verts)|)
      ensures IndicesWithin(old(vh.tris), |old(vh.verts)|) ==> IndicesWithin(vh.tris, |vh.verts|)
    {
      var i := vh.CurrentVertCount();
      vh.AddVert(UIVertex(corner1, uvCorner1, ToColor32(clrCorner1)));
      vh.AddVert(UIVertex(Vec2(corner2.x, corner1.y), Vec2(uvCorner2.x, uvCorner1.y), ToColor32(clrCorner1)));
      vh.AddVert(UIVertex(corner2, uvCorner2, ToColor32(clrCorner2)));
      vh.AddVert(UIVertex(Vec2(corner1.x, corner2.y), Vec2(uvCorner1.x, uvCorner2.y), ToColor32(clrCorner2)));
      vh.AddTriangle(i + 0, i + 2, i + 1);
      vh.AddTriangle(i + 3, i + 2, i + 0);
    }

    /** OnPopulateMesh: clears the buffer and emits one quad per adjacent pair of points,
        walking from the last point toward index 0. The buffer ends holding exactly
        StackVertices and StackTriangles: 4 (N - 1) vertices and 2 (N - 1) triangles for
        N >= 2 points, nothing for fewer, every triangle indexing a vertex. */
    method OnPopulateMesh(vh: VertexHelper, rect: RectLayout)
      modifies vh
      ensures vh.verts == StackVertices(gradientPoints[..], rect, OuterUV(sprite))
      ensures vh.tris == StackTriangles(gradientPoints.Length)
      ensures |vh.verts| == 4 * QuadCount(gradientPoints.Length)
      ensures |vh.tris| == 2 * QuadCount(gradientPoints.Length)
      ensures IndicesWithin(vh.tris, |vh.verts|)
    {
      vh.Clear();
      var bottomLeftCorner := BottomLeft(rect);
      var spriteUVInAtlas := OuterUV(sprite);
      ghost var points := gradientPoints[..];
      var n := gradientPoints.Length;
      var i := n - 1;
      while i > 0
        invariant if n == 0 then i == -1 else 0 <= i < n
        invariant n == 0 ==> vh.verts == [] && vh.tris == []
        invariant n > 0 ==> vh.verts == StackVertices(points[i..], rect, spriteUVInAtlas)
        invariant n > 0 ==> vh.tris == StackTriangles(n - i)
      {
        var firstGradientPoint := gradientPoints[i];
        var secondGradientPoint := gradientPoints[i - 1];
        var corner1 := Corner1(bottomLeftCorner, firstGradientPoint, rect);
        var corner2 := Corner2(bottomLeftCorner, secondGradientPoint, rect);
        var uvCorner1 := UVCorner1(spriteUVInAtlas, firstGradientPoint);
        var uvCorner2 := UVCorner2(spriteUVInAtlas, secondGradientPoint);
        StackStep(points, i, rect, spriteUVInAtlas);
        assert points[i] == firstGradientPoint && points[i - 1] == secondGradientPoint;
        assert |vh.verts| == 4 * (n - i - 1);
        AddQuad(vh, corner1, corner2, uvCorner1, uvCorner2, firstGradientPoint.vertexColor, secondGradientPoint.vertexColor);
        i := i - 1;
      }
      assert points[0..] == points;
      StackVerticesLength(points, rect, spriteUVInAtlas);
      StackTrianglesLength(n);
      StackTrianglesWithin(n);
    }

    /** mainTexture: the sprite's texture when there is a sprite; otherwise the material's
        main texture when there is one, else the white texture. It is null exactly while
        the sprite is waiting for its atlas. */
    function MainTexture(): (t: Option<Texture>)
      reads this
      ensures sprite.Some? ==> t == sprite.value.texture
      ensures sprite.None? && material.Some? && material.value.mainTexture.Some? ==> t == material.value.mainTexture
      ensures sprite.None? && !(material.Some? && material.value.mainTexture.Some?) ==> t == Some(WhiteTexture)
      ensures t.None? <==> Textureless(sprite)
    {
      if sprite.None? then
        if material.Some? && material.value.mainTexture.Some? then material.value.mainTexture
        else Some(WhiteTexture)
      else sprite.value.texture
    }

    /** TrackSprite: a textureless sprite puts this component on the tracked list (again,
        if it is already there) and sets m_Tracked; otherwise nothing changes.
        It never removes anything. */
    method TrackSprite()
      requires registry.Valid() && registry.MembersTracked()
      modifies this`tracked, registry
      ensures registry.Valid() && registry.MembersTracked()
      ensures registry.images == old(registry.images) + (if Textureless(sprite) then [this] else [])
      ensures tracked == (old(tracked) || Textureless(sprite))
      ensures registry.initialized == (old(registry.initialized) || Textureless(sprite))
      ensures old(registry.initialized) ==> registry.subscriptions == old(registry.subscriptions)
    {
      if sprite.Some? && sprite.value.texture.None? {
        registry.TrackImage(this);
        tracked := true;
      }
    }

    /** The sprite setter. Assigning the current value (including null over null) changes
        nothing. Otherwise the skip flags are computed from the old and new sprite, the
        value stored, everything marked dirty, and TrackSprite run for the new sprite.
        Replacing a sprite: skip layout iff the old rect size Equals the new one (zero for
        null), skip material iff the textures are the same (null for null). Assigning over
        null: skip layout iff the new size == Vector2.zero (Unity's approximate ==), skip
        material iff the new texture is null. */
    method SetSprite(value: Option<Sprite>)
      requires registry.Valid() && registry.MembersTracked()
      modifies this`sprite, this`skipLayoutUpdate, this`skipMaterialUpdate, this`allDirtyCount, this`tracked, registry
      ensures registry.Valid() && registry.MembersTracked()
      ensures sprite == value
      ensures old(sprite) == value ==>
        && skipLayoutUpdate == old(skipLayoutUpdate) && skipMaterialUpdate == old(skipMaterialUpdate)
        && allDirtyCount == old(allDirtyCount) && tracked == old(tracked)
        && registry.images == old(registry.images) && registry.initialized == old(registry.initialized)
        && registry.subscriptions == old(registry.subscriptions)
      ensures old(sprite).Some? && old(sprite) != value ==>
        && skipLayoutUpdate == (old(sprite).value.rectSize == (if value.Some? then value.value.rectSize else Vec2Zero))
        && skipMaterialUpdate == (old(sprite).value.texture == (if value.Some? then value.value.texture else None))
      ensures old(sprite).None? && value.Some? ==>
        && skipLayoutUpdate == ApproxEqual(value.value.rectSize, Vec2Zero)
        && skipMaterialUpdate == value.value.texture.None?
      ensures old(sprite) != value ==>
        && allDirtyCount == old(allDirtyCount) + 1
        && registry.images == old(registry.images) + (if Textureless(value) then [this] else [])
        && tracked == (old(tracked) || Textureless(value))
        && registry.initialized == (old(registry.initialized) || Textureless(value))
    {
      if sprite.Some? {
        if sprite != value {
          skipLayoutUpdate := sprite.value.rectSize == (if value.Some? then value.value.rectSize else Vec2Zero);
          skipMaterialUpdate := sprite.value.texture == (if value.Some? then value.value.texture else None);
          sprite := value;
          SetAllDirty();
          TrackSprite();
        }
      } else if value.Some? {
        skipLayoutUpdate := ApproxEqual(value.value.rectSize, Vec2Zero);
        skipMaterialUpdate := value.value.texture.None?;
        sprite := value;
        SetAllDirty();
        TrackSprite();
      }
    }

    /** OnEnable: TrackSprite. */
    method OnEnable()
      requires registry.Valid() && registry.MembersTracked()
      modifies this`tracked, registry
      ensures registry.Valid() && registry.MembersTracked()
      ensures registry.images == old(registry.images) + (if Textureless(sprite) then [this] else [])
      ensures tracked == (old(tracked) || Textureless(sprite))
      ensures registry.initialized == (old(registry.initialized) || Textureless(sprite))
      ensures old(registry.initialized) ==> registry.subscriptions == old(registry.subscriptions)
    {
      TrackSprite();
    }

    /** OnDisable: when m_Tracked is set, removes the first occurrence of this component
        from the tracked list; m_Tracked itself stays set. A component that was never
        tracked is not on the list, so skipping the removal loses nothing. */
    method OnDisable()
      requires registry.Valid() && registry.MembersTracked()
      modifies registry`images
      ensures registry.Valid() && registry.MembersTracked()
      ensures registry.images == if tracked then RemoveFirst(old(registry.images), this) else old(registry.images)
      ensures !tracked ==> this !in registry.images
    {
      if tracked {
        registry.UnTrackImage(this);
      }
    }
  }

  /** Tracking only ever appends and OnDisable removes one occurrence: a component given
      two textureless sprites in turn is on the list twice, and stays on it once after
      being disabled. */
  method TrackedTwiceOutlivesDisable() returns (left: nat)
    ensures left == 1
  {
    var registry := new TexturelessImageRegistry();
    var image := new CustomVerticalGradientUIMesh(registry);
    var a := Sprite(1, Vec2(8.0, 8.0), None, Vec4Zero);
    var b := Sprite(2, Vec2(8.0, 8.0), None, Vec4Zero);
    image.SetSprite(Some(a));
    image.SetSprite(Some(b));
    assert registry.images == [image, image];
    image.OnDisable();
    left := multiset(registry.images)[image];
  }
}
