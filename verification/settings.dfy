/**
 * The generator's property setters that force the resolution and the chunk
 * count to powers of two, and the configuration the mesh builder receives.
 */
module Settings {
  import opened PowersOfTwo

  const MinResolution: int := 32
  const MaxResolution: int := 8192
  /** What the older generator falls back to for a value below 32. */
  const FallbackResolution: int := 128

  // ---------------------------------------------------------------------------
  // Older generator: a countdown over the powers 2^13 down to 2^5
  // ---------------------------------------------------------------------------

  /** The loop from `i` downwards: the first `1 << (4 + i)` not above the value, or 0. */
  function ResolutionSearch(value: int, i: nat): (r: int)
    requires i <= 9
    ensures r == 0 <==> (i == 0 || value < MinResolution)
    ensures r != 0 ==> IsPow2(r) && MinResolution <= r <= Shl(4 + i) && r <= value
    ensures r != 0 ==> r == Shl(4 + i) || value < 2 * r
    decreases i
  {
    if i == 0 then 0
    else
      var res := Shl(4 + i);
      assert Shl(5) == MinResolution;
      ShlMonotone(5, 4 + i);
      ShlMonotone(3 + i, 4 + i);
      if value >= res then res else ResolutionSearch(value, i - 1)
  }

  /** The older generator's Resolution setter. */
  function RootResolution(value: int): (r: int)
    ensures IsPow2(r) && MinResolution <= r <= MaxResolution
    ensures value < MinResolution ==> r == FallbackResolution
    ensures value >= MinResolution ==> r <= value && (r == MaxResolution || value < 2 * r)
  {
    assert Shl(13) == MaxResolution;
    var found := ResolutionSearch(value, 9);
    if found == 0 then FallbackResolution else found
  }

  // ---------------------------------------------------------------------------
  // Chunked generator: do-while loops that double from a floor
  // ---------------------------------------------------------------------------

  /** Doubling from r, at least once, until it reaches the value or 8192. */
  function GrowResolution(r: int, value: int): (res: int)
    requires IsPow2(r) && 16 <= r < MaxResolution
    ensures IsPow2(res) && 2 * r <= res <= MaxResolution
    ensures res >= value || res == MaxResolution
    ensures res == 2 * r || res / 2 < value
    decreases MaxResolution - r
  {
    DoubleIsPow2(r);
    Pow2Gap(r, MaxResolution);
    var next := 2 * r;
    if next < value && next < MaxResolution then GrowResolution(next, value) else next
  }

  /** The chunked generator's Resolution setter. */
  function EditorResolution(value: int): (r: int)
    ensures IsPow2(r) && MinResolution <= r <= MaxResolution
    ensures value <= MinResolution ==> r == MinResolution
    ensures value > MaxResolution ==> r == MaxResolution
    ensures MinResolution <= value <= MaxResolution ==> value <= r && r / 2 < value
  {
    GrowResolution(16, value)
  }

  /** Doubling from c, at least once, until it reaches the value or half the resolution. */
  function GrowChunkCount(c: int, value: int, resolution: int): (res: int)
    requires IsPow2(c)
    ensures IsPow2(res) && res >= 2 * c
    ensures res >= value || res >= resolution / 2
    ensures res == 2 * c || (res / 2 < value && res / 2 < resolution / 2)
    decreases resolution - c
  {
    DoubleIsPow2(c);
    var next := 2 * c;
    if next < value && next < resolution / 2 then GrowChunkCount(next, value, resolution) else next
  }

  /**
   * The ChunkCount setter: the smallest power of two not below the value,
   * clamped to [2, resolution / 2], using the resolution current at the call.
   */
  function EditorChunkCount(value: int, resolution: int): (c: int)
    ensures IsPow2(c) && c >= 2
    ensures c >= value || c >= resolution / 2
    ensures c == 2 || (c / 2 < value && c / 2 < resolution / 2)
  {
    GrowChunkCount(1, value, resolution)
  }

  /** The chunk count never exceeds half of a power-of-two resolution of at least 4. */
  lemma ChunkCountAtMostHalf(value: int, resolution: int)
    requires IsPow2(resolution) && resolution >= 4
    ensures EditorChunkCount(value, resolution) <= resolution / 2
  {
    var c := EditorChunkCount(value, resolution);
    HalfIsPow2(resolution);
    if c != 2 {
      HalfIsPow2(c);
      Pow2Gap(c / 2, resolution / 2);
    }
  }

  // ---------------------------------------------------------------------------
  // Configuration handed to the mesh builder
  // ---------------------------------------------------------------------------

  /**
   * What the mesh builder needs of its resolution and chunk count: both
   * powers of two and at least one cell per chunk, so that
   * chunkResolution = resolution / chunkCount is a positive power of two
   * dividing the resolution.
   */
  predicate ValidConfig(resolution: int, chunkCount: int)
  {
    IsPow2(resolution) && IsPow2(chunkCount) && chunkCount <= resolution
  }

  function ChunkResolution(resolution: int, chunkCount: int): (cr: int)
    requires ValidConfig(resolution, chunkCount)
    ensures IsPow2(cr) && cr * chunkCount == resolution
  {
    Pow2Quotient(chunkCount, resolution);
    var cr := resolution / chunkCount;
    assert cr * chunkCount == resolution;
    cr
  }

  /** The editor's two setters, resolution first: its state as the mesh builder sees it. */
  datatype EditorSettings = EditorSettings(resolution: int, chunkCount: int)

  /** The state both setters promise: every chunk at least 2 cells wide. */
  predicate ValidEditorSettings(s: EditorSettings)
  {
    && IsPow2(s.resolution) && MinResolution <= s.resolution <= MaxResolution
    && IsPow2(s.chunkCount) && 2 <= s.chunkCount <= s.resolution / 2
  }

  /**
   * Setting the chunk count after the resolution leaves a resolution that the
   * chunk count divides, with chunks at least two cells wide.
   */
  lemma ResolutionThenChunkCount(resolutionValue: int, chunkValue: int)
    ensures ValidEditorSettings(EditorSettings(EditorResolution(resolutionValue),
                                               EditorChunkCount(chunkValue, EditorResolution(resolutionValue))))
    ensures var r := EditorResolution(resolutionValue);
            var c := EditorChunkCount(chunkValue, r);
            ValidConfig(r, c) && r % c == 0 && ChunkResolution(r, c) >= 2
  {
    var r := EditorResolution(resolutionValue);
    var c := EditorChunkCount(chunkValue, r);
    ChunkCountAtMostHalf(chunkValue, r);
    Pow2Quotient(c, r);
    assert r / c != 1;
  }

  /** Every valid editor state is a configuration the mesh builder accepts, with chunks at least 2 cells wide. */
  lemma ValidEditorConfig(s: EditorSettings)
    requires ValidEditorSettings(s)
    ensures ValidConfig(s.resolution, s.chunkCount) && ChunkResolution(s.resolution, s.chunkCount) >= 2
  {
    Pow2Quotient(s.chunkCount, s.resolution);
    assert s.resolution / s.chunkCount != 1;
  }

  // ---------------------------------------------------------------------------
  // The two setters as state transitions
  // ---------------------------------------------------------------------------

  /** The field initialisers: resolution 128, chunk count 4. */
  const DefaultSettings := EditorSettings(128, 4)

  /** The clamp of ChunkCountAtMostHalf, for any resolution. */
  lemma ChunkCountFits(value: int, resolution: int)
    ensures IsPow2(resolution) && resolution >= 4 ==> EditorChunkCount(value, resolution) <= resolution / 2
  {
    if IsPow2(resolution) && resolution >= 4 {
      ChunkCountAtMostHalf(value, resolution);
    }
  }

  /** The ChunkCount setter: clamps against the resolution current at the call. */
  function SetChunkCount(s: EditorSettings, value: int): (r: EditorSettings)
    ensures r.resolution == s.resolution
    ensures IsPow2(s.resolution) && MinResolution <= s.resolution <= MaxResolution ==> ValidEditorSettings(r)
  {
    ChunkCountFits(value, s.resolution);
    s.(chunkCount := EditorChunkCount(value, s.resolution))
  }

  /**
   * The Resolution setter as written: it replaces the resolution and leaves
   * the chunk count alone, although the chunk count was clamped against the
   * old resolution.
   */
  function SetResolutionAsWritten(s: EditorSettings, value: int): (r: EditorSettings)
    ensures r.chunkCount == s.chunkCount
    ensures IsPow2(r.resolution) && MinResolution <= r.resolution <= MaxResolution
  {
    s.(resolution := EditorResolution(value))
  }

  /**
   * From the defaults, ChunkCount = 64 is accepted (64 is half of 128), and
   * Resolution = 32 then leaves 64 chunks of 32 / 64 = 0 cells each: the
   * chunk resolution the mesh builder divides by is 0.
   */
  lemma SetResolutionKeepsStaleChunkCount()
    ensures ValidEditorSettings(DefaultSettings)
    ensures SetChunkCount(DefaultSettings, 64) == EditorSettings(128, 64)
    ensures ValidEditorSettings(SetChunkCount(DefaultSettings, 64))
    ensures var t := SetResolutionAsWritten(SetChunkCount(DefaultSettings, 64), 32);
            && t == EditorSettings(32, 64) && !ValidEditorSettings(t)
            && !ValidConfig(t.resolution, t.chunkCount) && t.resolution / t.chunkCount == 0
  {
    assert GrowChunkCount(32, 64, 128) == 64;
    assert GrowChunkCount(16, 64, 128) == 64;
    assert GrowChunkCount(8, 64, 128) == 64;
    assert GrowChunkCount(4, 64, 128) == 64;
    assert GrowChunkCount(2, 64, 128) == 64;
    assert EditorChunkCount(64, 128) == 64;
    assert GrowResolution(16, 32) == 32;
  }

  /** A power of two in [2, resolution / 2] survives the ChunkCount clamp unchanged. */
  lemma ChunkCountKeepsFit(c: int, resolution: int)
    ensures IsPow2(c) && 2 <= c <= resolution / 2 ==> EditorChunkCount(c, resolution) == c
  {
    var c' := EditorChunkCount(c, resolution);
    if !(IsPow2(c) && 2 <= c <= resolution / 2) {
    } else if c' > c {
      Pow2Gap(c, c');
      assert false;
    } else if c' < c {
      assert false;
    }
  }

  /**
   * The Resolution setter as evidently intended: after the new resolution,
   * the chunk count is clamped again, so every state it leaves is valid, and
   * a chunk count that still fits is kept.
   */
  function SetResolution(s: EditorSettings, value: int): (r: EditorSettings)
    ensures r.resolution == EditorResolution(value)
    ensures ValidEditorSettings(r)
    ensures IsPow2(s.chunkCount) && 2 <= s.chunkCount <= r.resolution / 2 ==> r.chunkCount == s.chunkCount
  {
    var res := EditorResolution(value);
    var r := EditorSettings(res, EditorChunkCount(s.chunkCount, res));
    ChunkCountAtMostHalf(s.chunkCount, res);
    ChunkCountKeepsFit(s.chunkCount, res);
    r
  }

  /** One assignment to an exported property. */
  datatype SetterCall = Resolution(value: int) | ChunkCount(value: int)

  function ApplyCalls(s: EditorSettings, calls: seq<SetterCall>): EditorSettings
    decreases |calls|
  {
    if |calls| == 0 then s
    else
      var next := match calls[0]
        case Resolution(v) => SetResolution(s, v)
        case ChunkCount(v) => SetChunkCount(s, v);
      ApplyCalls(next, calls[1..])
  }

  /** With the corrected Resolution setter, any sequence of assignments from the defaults leaves a valid state. */
  lemma {:induction false} CallsStayValid(s: EditorSettings, calls: seq<SetterCall>)
    requires ValidEditorSettings(s)
    ensures ValidEditorSettings(ApplyCalls(s, calls))
    ensures ValidConfig(ApplyCalls(s, calls).resolution, ApplyCalls(s, calls).chunkCount)
    decreases |calls|
  {
    if |calls| == 0 {
      ValidEditorConfig(s);
    } else {
      var next := match calls[0]
        case Resolution(v) => SetResolution(s, v)
        case ChunkCount(v) => SetChunkCount(s, v);
      CallsStayValid(next, calls[1..]);
    }
  }
}
