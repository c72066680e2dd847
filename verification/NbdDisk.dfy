/**
 * The mediated disk: a backing file with a sector-granular write-back
 * overlay (provium-host/src/nbd.rs).
 *
 * `DiskView` is the flat disk the overlay stands for. It knows nothing of
 * sectors' contents: a write is one splice into a byte array. The class
 * `DiskState` is the overlay itself, proved to behave as the flat disk.
 */
module NbdDisk {
  import opened Bytes

  // A sector is 512 bytes; the literal keeps sector arithmetic linear.
  const OVERLAY_CAP_BYTES: nat := 64 * 1024 * 1024

  /** The sector byte `i` lies in. */
  function SectorOf(i: nat): (k: nat)
    ensures k * 512 <= i < (k + 1) * 512
  {
    i / 512
  }

  datatype Result<T> = Ok(value: T) | Err

  /** What the guest sees, what a power cut would leave, and which sectors may differ. */
  datatype DiskView = DiskView(visible: bytes, durable: bytes, dirty: set<nat>, flushes: nat)

  datatype WriteOutcome = WriteOutcome(ok: bool, after: DiskView)

  ghost predicate Consistent(v: DiskView)
  {
    && |v.visible| == |v.durable|
    && (forall k :: k in v.dirty ==> (k + 1) * 512 <= |v.durable|)
    && (forall i :: 0 <= i < |v.visible| && SectorOf(i) !in v.dirty ==> v.visible[i] == v.durable[i])
  }

  function Splice(s: bytes, at: nat, data: bytes): bytes
    requires at + |data| <= |s|
  {
    s[..at] + data + s[at + |data|..]
  }

  predicate Within(lo: nat, k: nat, hi: nat)
  {
    lo <= k < hi
  }

  function Range(lo: nat, hi: nat): (r: set<nat>)
    ensures forall k: nat :: k in r <==> lo <= k < hi
  {
    set k: nat | lo <= k < hi && Within(lo, k, hi)
  }

  lemma {:induction false} RangeSize(lo: nat, hi: nat)
    requires lo <= hi
    ensures |Range(lo, hi)| == hi - lo
    decreases hi
  {
    if lo < hi {
      RangeSize(lo, hi - 1);
      assert Range(lo, hi) == Range(lo, hi - 1) + {hi - 1};
    }
  }

  /** The sectors a non-empty range of bytes overlaps. */
  function Touched(offset: nat, len: nat): set<nat>
    requires len > 0
  {
    Range(SectorOf(offset), SectorOf(offset + len - 1) + 1)
  }

  /** Bytes that belong to whole sectors; a trailing partial sector is beyond it. */
  function WholeSectors(size: nat): nat
  {
    SectorOf(size) * 512
  }

  lemma {:induction false} InSector(i: nat, k: nat)
    requires k * 512 <= i < (k + 1) * 512
    ensures SectorOf(i) == k
  {
  }

  lemma {:induction false} SectorOrder(offset: nat, i: nat, upto: nat)
    ensures offset <= i ==> SectorOf(offset) <= SectorOf(i)
    ensures SectorOf(i) < upto <==> i < upto * 512
  {
  }

  /** Whole sectors are counted in whole sectors. */
  lemma {:induction false} WholeSectorsAt(size: nat, k: nat)
    ensures k * 512 <= size ==> k * 512 <= WholeSectors(size)
    ensures k * 512 <= size < (k + 1) * 512 ==> WholeSectors(size) == k * 512
  {
    var s := SectorOf(size);
    if s < k {
      assert (s + 1) * 512 <= k * 512;
    } else if k < s {
      assert (k + 1) * 512 <= s * 512;
    }
  }

  function Commit(v: DiskView): DiskView
  {
    v.(durable := v.visible, dirty := {}, flushes := v.flushes + 1)
  }

  predicate OverCap(v: DiskView)
  {
    |v.dirty| * 512 > OVERLAY_CAP_BYTES
  }

  function Accept(v: DiskView, offset: nat, data: bytes): DiskView
    requires data != [] && offset + |data| <= |v.visible|
  {
    v.(visible := Splice(v.visible, offset, data), dirty := v.dirty + Touched(offset, |data|))
  }

  /**
   * A write of the flat disk. Past the last whole sector it fails, and if it
   * began before it, the part in front of it has been taken all the same.
   */
  function WriteView(v: DiskView, offset: nat, data: bytes): WriteOutcome
  {
    var whole := WholeSectors(|v.visible|);
    if data == [] then
      WriteOutcome(true, v)
    else if offset + |data| > |v.visible| then
      WriteOutcome(false, v)
    else if offset + |data| <= whole then
      var taken := Accept(v, offset, data);
      WriteOutcome(true, if OverCap(taken) then Commit(taken) else taken)
    else if offset < whole then
      WriteOutcome(false, Accept(v, offset, data[..whole - offset]))
    else
      WriteOutcome(false, v)
  }

  /** How many of the `len` bytes from `offset` a write takes on a disk of `size` bytes. */
  function Landed(size: nat, offset: nat, len: nat): (n: nat)
    ensures n <= len && (n > 0 ==> offset + n <= WholeSectors(size) && offset + len <= size)
  {
    if offset + len > size then 0
    else if offset + len <= WholeSectors(size) then len
    else if offset < WholeSectors(size) then WholeSectors(size) - offset
    else 0
  }

  /** A write takes the bytes that land, succeeds when they all do, and only then minds the cap. */
  lemma {:induction false} WriteLands(v: DiskView, offset: nat, data: bytes)
    ensures var n := Landed(|v.visible|, offset, |data|);
            && WriteView(v, offset, data).ok == (n == |data|)
            && WriteView(v, offset, data).after ==
               if n == 0 then v
               else
                 var taken := Accept(v, offset, data[..n]);
                 if n == |data| && OverCap(taken) then Commit(taken) else taken
  {
    assert data[..|data|] == data;
  }

  /** A write wholly past the last whole sector fails and takes nothing. */
  lemma {:induction false} WritePastWhole(v: DiskView, offset: nat, data: bytes, whole: nat)
    requires whole == WholeSectors(|v.visible|) <= offset && offset + |data| <= |v.visible| && data != []
    ensures WriteView(v, offset, data) == WriteOutcome(false, v)
  {
  }

  /** One that begins before it fails too, having taken what lay before it. */
  lemma {:induction false} WriteAcrossWhole(v: DiskView, offset: nat, data: bytes, whole: nat)
    requires offset < whole == WholeSectors(|v.visible|) < offset + |data| <= |v.visible| && data != []
    ensures WriteView(v, offset, data) == WriteOutcome(false, Accept(v, offset, data[..whole - offset]))
  {
  }

  function ReadView(v: DiskView, offset: nat, len: nat): Result<bytes>
  {
    if len == 0 then Ok([])
    else if offset + len > |v.visible| then Err
    else Ok(v.visible[offset..offset + len])
  }

  function PowerCutView(v: DiskView): DiskView
  {
    v.(visible := v.durable, dirty := {})
  }

  // ---------------------------------------------------------------------
  // The overlay
  // ---------------------------------------------------------------------

  ghost predicate Held(size: nat, overlay: map<nat, bytes>)
  {
    forall k :: k in overlay ==> (k + 1) * 512 <= size && |overlay[k]| == 512
  }

  /** The backing file with the held sectors laid over it. */
  function Overlaid(file: bytes, overlay: map<nat, bytes>): (r: bytes)
    requires Held(|file|, overlay)
    ensures |r| == |file|
  {
    seq(|file|, i requires 0 <= i < |file| =>
      if SectorOf(i) in overlay then overlay[SectorOf(i)][i - SectorOf(i) * 512] else file[i])
  }

  function SectorAt(s: bytes, k: nat): (r: bytes)
    requires (k + 1) * 512 <= |s|
    ensures |r| == 512 && forall j :: 0 <= j < 512 ==> r[j] == s[k * 512 + j]
  {
    s[k * 512..(k + 1) * 512]
  }

  /** Sector `k` holding `held`, with the bytes of `data` that fall in it laid over. */
  function Laid(held: bytes, k: nat, offset: nat, data: bytes): (r: bytes)
    requires |held| == 512 && data != [] && SectorOf(offset) <= k <= SectorOf(offset + |data| - 1)
    ensures |r| == 512
  {
    var start, end := k * 512, offset + |data|;
    var from := if offset > start then offset else start;
    var to := if end < start + 512 then end else start + 512;
    Patched(held, from - start, data[from - offset..to - offset])
  }

  /** `held` with the bytes of `patch` in place of its own from `at` on. */
  function Patched(held: bytes, at: nat, patch: bytes): (r: bytes)
    requires at + |patch| <= |held|
    ensures |r| == |held|
    ensures forall j :: 0 <= j < |held| ==> r[j] == if at <= j < at + |patch| then patch[j - at] else held[j]
  {
    held[..at] + patch + held[at + |patch|..]
  }

  /** Sector `k` part way through a write in which every sector before `upto` has been laid. */
  ghost predicate SectorTaken(before: DiskView, held: bytes, offset: nat, data: bytes, upto: nat, k: nat)
    requires data != [] && upto <= SectorOf(offset + |data| - 1) + 1 && (k + 1) * 512 <= |before.visible|
  {
    && (SectorOf(offset) <= k < upto ==> held == Laid(SectorAt(before.visible, k), k, offset, data))
    && (!(SectorOf(offset) <= k < upto) ==> held == SectorAt(before.visible, k))
  }

  /** The overlay part way through a write. */
  ghost predicate Taken(before: DiskView, overlay: map<nat, bytes>, offset: nat, data: bytes, upto: nat)
    requires data != [] && upto <= SectorOf(offset + |data| - 1) + 1
  {
    && Held(|before.visible|, overlay)
    && (forall k :: k in overlay <==> k in before.dirty || SectorOf(offset) <= k < upto)
    && forall k :: k in overlay ==> SectorTaken(before, overlay[k], offset, data, upto, k)
  }

  lemma {:induction false} CleanSector(v: DiskView, k: nat)
    requires Consistent(v) && k !in v.dirty && (k + 1) * 512 <= |v.visible|
    ensures SectorAt(v.visible, k) == SectorAt(v.durable, k)
  {
    var a, b := SectorAt(v.visible, k), SectorAt(v.durable, k);
    forall j | 0 <= j < 512
      ensures a[j] == b[j]
    {
      assert SectorOf(k * 512 + j) == k;
    }
  }

  lemma {:induction false} HeldUntouched(before: DiskView, overlay: map<nat, bytes>, offset: nat, data: bytes, k: nat)
    requires data != [] && k <= SectorOf(offset + |data| - 1) && Taken(before, overlay, offset, data, k) && k in overlay
    ensures (k + 1) * 512 <= |before.visible| && overlay[k] == SectorAt(before.visible, k)
  {
    assert SectorTaken(before, overlay[k], offset, data, k, k);
  }

  /** Which sectors the overlay holds once sector `k` is in it. */
  lemma {:induction false} TakeKeys(before: DiskView, overlay: map<nat, bytes>, first: nat, k: nat, laid: bytes)
    requires Held(|before.visible|, overlay) && |laid| == 512 && (k + 1) * 512 <= |before.visible| && first <= k
    requires forall q :: q in overlay <==> q in before.dirty || first <= q < k
    ensures Held(|before.visible|, overlay[k := laid])
    ensures forall q :: q in overlay[k := laid] <==> q in before.dirty || first <= q < k + 1
  {
  }

  lemma {:induction false} TakeSector(before: DiskView, overlay: map<nat, bytes>, offset: nat, data: bytes, k: nat)
    requires data != [] && SectorOf(offset) <= k <= SectorOf(offset + |data| - 1)
    requires Taken(before, overlay, offset, data, k) && (k + 1) * 512 <= |before.visible|
    ensures Taken(before, overlay[k := Laid(SectorAt(before.visible, k), k, offset, data)], offset, data, k + 1)
  {
    var laid := Laid(SectorAt(before.visible, k), k, offset, data);
    TakeKeys(before, overlay, SectorOf(offset), k, laid);
    TakeContents(before, overlay, overlay[k := laid], offset, data, k);
  }

  lemma {:induction false} TakeContents(before: DiskView, overlay: map<nat, bytes>, next: map<nat, bytes>, offset: nat, data: bytes, k: nat)
    requires data != [] && SectorOf(offset) <= k <= SectorOf(offset + |data| - 1)
    requires Held(|before.visible|, overlay) && Held(|before.visible|, next) && (k + 1) * 512 <= |before.visible|
    requires forall q :: q in overlay ==> SectorTaken(before, overlay[q], offset, data, k, q)
    requires next == overlay[k := Laid(SectorAt(before.visible, k), k, offset, data)]
    ensures forall q :: q in next ==> SectorTaken(before, next[q], offset, data, k + 1, q)
  {
    forall q | q in next ensures SectorTaken(before, next[q], offset, data, k + 1, q) {
      if q != k { SectorStaysTaken(before, overlay[q], offset, data, k, q); }
    }
  }

  lemma {:induction false} SectorStaysTaken(before: DiskView, held: bytes, offset: nat, data: bytes, k: nat, q: nat)
    requires data != [] && k <= SectorOf(offset + |data| - 1) && (q + 1) * 512 <= |before.visible|
    requires SectorTaken(before, held, offset, data, k, q) && q != k
    ensures SectorTaken(before, held, offset, data, k + 1, q)
  {
  }

  lemma {:induction false} OverlaidByte(file: bytes, overlay: map<nat, bytes>, i: nat)
    requires Held(|file|, overlay) && i < |file|
    ensures Overlaid(file, overlay)[i] ==
            if SectorOf(i) in overlay then overlay[SectorOf(i)][i - SectorOf(i) * 512] else file[i]
  {
  }

  lemma {:induction false} SectorByte(s: bytes, k: nat, i: nat)
    requires (k + 1) * 512 <= |s| && k * 512 <= i < (k + 1) * 512
    ensures SectorAt(s, k)[i - k * 512] == s[i]
  {
    assert k * 512 + (i - k * 512) == i;
  }

  /** A byte of a held sector. */
  lemma {:induction false} HeldByte(before: DiskView, held: bytes, offset: nat, data: bytes, upto: nat, k: nat, i: nat)
    requires data != [] && upto <= SectorOf(offset + |data| - 1) + 1 && (k + 1) * 512 <= |before.visible|
    requires SectorTaken(before, held, offset, data, upto, k) && k * 512 <= i < (k + 1) * 512
    ensures |held| == 512
    ensures held[i - k * 512] == if SectorOf(offset) <= k < upto && offset <= i < offset + |data| then data[i - offset]
                                 else before.visible[i]
  {
    SectorByte(before.visible, k, i);
    if SectorOf(offset) <= k < upto {
      LaidByte(SectorAt(before.visible, k), k, offset, data, i);
    }
  }

  /** Byte `i` of the disk after the sectors before `upto` have been laid. */
  lemma {:induction false} TakenByte(before: DiskView, overlay: map<nat, bytes>, offset: nat, data: bytes, upto: nat, i: nat)
    requires Consistent(before) && data != [] && upto <= SectorOf(offset + |data| - 1) + 1
    requires Taken(before, overlay, offset, data, upto) && i < |before.visible|
    ensures Overlaid(before.durable, overlay)[i] ==
            if offset <= i < offset + |data| && i < upto * 512 then data[i - offset] else before.visible[i]
  {
    var k := SectorOf(i);
    SectorOrder(offset, i, upto);
    OverlaidByte(before.durable, overlay, i);
    if k in overlay {
      HeldByte(before, overlay[k], offset, data, upto, k, i);
    } else {
      assert k !in before.dirty;
    }
  }

  lemma {:induction false} LaidByte(held: bytes, k: nat, offset: nat, data: bytes, i: nat)
    requires |held| == 512 && data != [] && SectorOf(offset) <= k <= SectorOf(offset + |data| - 1)
    requires k * 512 <= i < (k + 1) * 512
    ensures Laid(held, k, offset, data)[i - k * 512] ==
            if offset <= i < offset + |data| then data[i - offset] else held[i - k * 512]
  {
    assert k * 512 + (i - k * 512) == i;
  }

  /** Taking a write sector by sector splices the bytes of those sectors. */
  lemma {:induction false} TakenIsSplice(before: DiskView, overlay: map<nat, bytes>, offset: nat, data: bytes, upto: nat, n: nat)
    requires Consistent(before) && data != [] && offset + |data| <= |before.visible|
    requires SectorOf(offset) <= upto <= SectorOf(offset + |data| - 1) + 1
    requires Taken(before, overlay, offset, data, upto)
    requires n == if upto * 512 <= offset then 0 else if upto * 512 < offset + |data| then upto * 512 - offset else |data|
    ensures Overlaid(before.durable, overlay) == Splice(before.visible, offset, data[..n])
  {
    var now, want := Overlaid(before.durable, overlay), Splice(before.visible, offset, data[..n]);
    forall i | 0 <= i < |now|
      ensures now[i] == want[i]
    {
      TakenByte(before, overlay, offset, data, upto, i);
      SpliceByte(before.visible, offset, data[..n], i);
      assert offset <= i < offset + n <==> offset <= i < offset + |data| && i < upto * 512;
    }
  }

  function ViewOf(file: bytes, overlay: map<nat, bytes>, flushes: nat): DiskView
    requires Held(|file|, overlay)
  {
    DiskView(Overlaid(file, overlay), file, overlay.Keys, flushes)
  }

  lemma {:induction false} NoneTaken(file: bytes, overlay: map<nat, bytes>, flushes: nat, offset: nat, data: bytes)
    requires Held(|file|, overlay) && data != []
    ensures SectorOf(offset) <= SectorOf(offset + |data| - 1)
    ensures Taken(ViewOf(file, overlay, flushes), overlay, offset, data, SectorOf(offset))
  {
    var before := ViewOf(file, overlay, flushes);
    forall k | k in overlay
      ensures SectorTaken(before, overlay[k], offset, data, SectorOf(offset), k)
    {
      forall j | 0 <= j < 512
        ensures overlay[k][j] == SectorAt(before.visible, k)[j]
      {
        assert SectorOf(k * 512 + j) == k;
      }
    }
  }

  lemma {:induction false} TakenKeys(before: DiskView, overlay: map<nat, bytes>, offset: nat, data: bytes, upto: nat)
    requires data != [] && upto <= SectorOf(offset + |data| - 1) + 1
    requires Taken(before, overlay, offset, data, upto)
    ensures overlay.Keys == before.dirty + Range(SectorOf(offset), upto)
  {
    forall k: nat
      ensures k in overlay.Keys <==> k in before.dirty + Range(SectorOf(offset), upto)
    {
    }
  }

  /** The last sector laid is a whole one, so the write ends in whole sectors. */
  lemma {:induction false} AllTakenIsWhole(size: nat, offset: nat, data: bytes)
    requires data != [] && (SectorOf(offset + |data| - 1) + 1) * 512 <= size
    ensures offset + |data| <= WholeSectors(size)
  {
    WholeSectorsAt(size, SectorOf(offset + |data| - 1) + 1);
  }

  /** All sectors laid: the flat disk has accepted the write. */
  lemma {:induction false} AllTaken(before: DiskView, overlay: map<nat, bytes>, offset: nat, data: bytes)
    requires Consistent(before) && data != [] && offset + |data| <= |before.visible|
    requires Taken(before, overlay, offset, data, SectorOf(offset + |data| - 1) + 1)
    ensures ViewOf(before.durable, overlay, before.flushes) == Accept(before, offset, data)
  {
    var upto := SectorOf(offset + |data| - 1) + 1;
    TakenIsSplice(before, overlay, offset, data, upto, |data|);
    assert data[..|data|] == data;
    TakenKeys(before, overlay, offset, data, upto);
  }

  /** Stopped at the first sector, a partial one: nothing was taken. */
  lemma {:induction false} StoppedAtOnce(before: DiskView, overlay: map<nat, bytes>, offset: nat, data: bytes)
    requires Consistent(before) && data != [] && offset + |data| <= |before.visible|
    requires Taken(before, overlay, offset, data, SectorOf(offset))
    ensures ViewOf(before.durable, overlay, before.flushes) == before
  {
    TakenKeys(before, overlay, offset, data, SectorOf(offset));
    TakenIsSplice(before, overlay, offset, data, SectorOf(offset), 0);
    SpliceNothing(before.visible, offset, data);
  }

  lemma {:induction false} SpliceByte(s: bytes, at: nat, data: bytes, i: nat)
    requires at + |data| <= |s| && i < |s|
    ensures Splice(s, at, data)[i] == if at <= i < at + |data| then data[i - at] else s[i]
  {
  }

  lemma {:induction false} SpliceNothing(s: bytes, at: nat, data: bytes)
    requires at <= |s|
    ensures Splice(s, at, data[..0]) == s
  {
  }

  /** Stopped at a later sector `k`: what lay before it was taken. */
  lemma {:induction false} StoppedLater(before: DiskView, overlay: map<nat, bytes>, offset: nat, data: bytes, k: nat)
    requires Consistent(before) && data != [] && offset + |data| <= |before.visible|
    requires SectorOf(offset) < k <= SectorOf(offset + |data| - 1)
    requires Taken(before, overlay, offset, data, k)
    ensures ViewOf(before.durable, overlay, before.flushes) == Accept(before, offset, data[..k * 512 - offset])
  {
    TakenKeys(before, overlay, offset, data, k);
    TakenIsSplice(before, overlay, offset, data, k, k * 512 - offset);
    InSector(k * 512 - 1, k - 1);
  }

  /** Either way the flat disk fails the write in the same state. */
  lemma {:induction false} StoppedAt(before: DiskView, overlay: map<nat, bytes>, offset: nat, data: bytes, k: nat)
    requires Consistent(before) && data != [] && offset + |data| <= |before.visible|
    requires SectorOf(offset) <= k <= SectorOf(offset + |data| - 1)
    requires k * 512 <= |before.visible| < (k + 1) * 512
    requires Taken(before, overlay, offset, data, k)
    ensures WriteView(before, offset, data) == WriteOutcome(false, ViewOf(before.durable, overlay, before.flushes))
  {
    if SectorOf(offset) == k {
      StoppedAtOnce(before, overlay, offset, data);
      FailsAtOnce(before, offset, data, k);
    } else {
      StoppedLater(before, overlay, offset, data, k);
      FailsLater(before, offset, data, k);
    }
  }

  lemma {:induction false} FailsAtOnce(v: DiskView, offset: nat, data: bytes, k: nat)
    requires data != [] && offset + |data| <= |v.visible| && k == SectorOf(offset)
    requires k * 512 <= |v.visible| < (k + 1) * 512
    ensures WriteView(v, offset, data) == WriteOutcome(false, v)
  {
    WholeSectorsAt(|v.visible|, k);
    WritePastWhole(v, offset, data, k * 512);
  }

  lemma {:induction false} FailsLater(v: DiskView, offset: nat, data: bytes, k: nat)
    requires data != [] && offset + |data| <= |v.visible| && SectorOf(offset) < k <= SectorOf(offset + |data| - 1)
    requires k * 512 <= |v.visible| < (k + 1) * 512
    ensures 0 < k * 512 - offset <= |data|
    ensures WriteView(v, offset, data) == WriteOutcome(false, Accept(v, offset, data[..k * 512 - offset]))
  {
    WholeSectorsAt(|v.visible|, k);
    WriteAcrossWhole(v, offset, data, k * 512);
  }

  /** A write under way, and the disk it found. */
  datatype Writing = Writing(before: DiskView, offset: nat, data: bytes) {
    function Last(): nat
    {
      if data == [] then 0 else SectorOf(offset + |data| - 1)
    }
  }

  /** The sector loop before it takes up sector `upto`. */
  ghost predicate Stage(w: Writing, size: nat, overlay: map<nat, bytes>, upto: nat)
  {
    && Consistent(w.before) && w.data != [] && w.offset + |w.data| <= size == |w.before.visible|
    && SectorOf(w.offset) <= upto <= w.Last() + 1
    && Taken(w.before, overlay, w.offset, w.data, upto) && (SectorOf(w.offset) < upto ==> upto * 512 <= size)
  }

  lemma {:induction false} StageStops(w: Writing, size: nat, overlay: map<nat, bytes>, k: nat)
    requires Stage(w, size, overlay, k) && k <= w.Last() && (k + 1) * 512 > size
    ensures WriteView(w.before, w.offset, w.data) ==
            WriteOutcome(false, ViewOf(w.before.durable, overlay, w.before.flushes))
  {
    SectorOrder(w.offset, w.offset + |w.data| - 1, k);
    StoppedAt(w.before, overlay, w.offset, w.data, k);
  }

  lemma {:induction false} StageAdvances(w: Writing, size: nat, overlay: map<nat, bytes>, k: nat)
    requires Stage(w, size, overlay, k) && k <= w.Last() && (k in overlay || (k + 1) * 512 <= size)
    ensures (k + 1) * 512 <= size
    ensures var held := if k in overlay then overlay[k] else SectorAt(w.before.durable, k);
            |held| == 512 && Stage(w, size, overlay[k := Laid(held, k, w.offset, w.data)], k + 1)
  {
    if k in overlay {
      HeldUntouched(w.before, overlay, w.offset, w.data, k);
    } else {
      CleanSector(w.before, k);
    }
    TakeSector(w.before, overlay, w.offset, w.data, k);
  }

  lemma {:induction false} StageEnds(w: Writing, size: nat, overlay: map<nat, bytes>)
    requires Stage(w, size, overlay, w.Last() + 1)
    ensures ViewOf(w.before.durable, overlay, w.before.flushes) == Accept(w.before, w.offset, w.data)
  {
    AllTaken(w.before, overlay, w.offset, w.data);
  }

  /** What the loop leaves when it has run to its end. */
  lemma {:induction false} StageEndsWhole(w: Writing, size: nat, overlay: map<nat, bytes>)
    requires Stage(w, size, overlay, w.Last() + 1)
    ensures w.offset + |w.data| <= WholeSectors(size)
  {
    AllTakenIsWhole(size, w.offset, w.data);
  }

  /** What the loop leaves, run to its end or stopped at sector `upto`. */
  lemma {:induction false} StageOutcome(w: Writing, size: nat, overlay: map<nat, bytes>, upto: nat, ok: bool)
    requires Stage(w, size, overlay, upto) && (ok ==> upto == w.Last() + 1)
    requires !ok ==> upto <= w.Last() && (upto + 1) * 512 > size
    ensures Held(size, overlay)
    ensures ok ==> ViewOf(w.before.durable, overlay, w.before.flushes) == Accept(w.before, w.offset, w.data)
    ensures ok ==> w.offset + |w.data| <= WholeSectors(size)
    ensures !ok ==> WriteView(w.before, w.offset, w.data) ==
                    WriteOutcome(false, ViewOf(w.before.durable, overlay, w.before.flushes))
  {
    if ok {
      StageEndsWhole(w, size, overlay);
      StageEnds(w, size, overlay);
    } else {
      StageStops(w, size, overlay, upto);
    }
  }

  /** What `Read` has in its buffer for byte `i` once the sectors before `upto` are overlaid. */
  ghost function Shown(file: bytes, overlay: map<nat, bytes>, upto: nat, i: nat): byte
    requires Held(|file|, overlay) && i < |file|
  {
    if SectorOf(i) < upto then Overlaid(file, overlay)[i] else file[i]
  }

  lemma {:induction false} ShowSector(file: bytes, overlay: map<nat, bytes>, k: nat, i: nat)
    requires Held(|file|, overlay) && i < |file|
    ensures Shown(file, overlay, k + 1, i) ==
            if k in overlay && k * 512 <= i < (k + 1) * 512 then overlay[k][i - k * 512] else Shown(file, overlay, k, i)
  {
  }

  /** Copy the part of sector `k` that a buffer standing for the bytes from `offset` covers. */
  method LaySector(buf: array<byte>, offset: nat, k: nat, held: bytes)
    requires |held| == 512
    modifies buf
    ensures forall b :: 0 <= b < buf.Length ==>
      buf[b] == if k * 512 <= offset + b < (k + 1) * 512 then held[offset + b - k * 512] else old(buf[b])
  {
    var start, end := k * 512, offset + buf.Length;
    var from := if offset > start then offset else start;
    var to := if end < start + 512 then end else start + 512;
    forall b | from - offset <= b < to - offset {
      buf[b] := held[offset + b - start];
    }
  }

  class DiskState {
    const file: array<byte>
    var overlay: map<nat, bytes>
    var flushes: nat

    ghost predicate Valid()
      reads this, file
    {
      file.Length < U64_LIMIT && Held(file.Length, overlay)
    }

    ghost function View(): (v: DiskView)
      requires Valid()
      reads this, file
      ensures Consistent(v)
    {
      ViewOf(file[..], overlay, flushes)
    }

    constructor (image: array<byte>)
      requires image.Length < U64_LIMIT
      ensures Valid() && file == image
      ensures View() == DiskView(image[..], image[..], {}, 0)
    {
      file := image;
      overlay := map[];
      flushes := 0;
      new;
      assert Overlaid(image[..], map[]) == image[..];
    }

    method Read(offset: nat, len: nat) returns (r: Result<bytes>)
      requires Valid()
      ensures r == ReadView(View(), offset, len)
    {
      if len == 0 {
        return Ok([]);
      }
      if offset + len >= U64_LIMIT {
        return Err;
      }
      var end := offset + len;
      if end > file.Length {
        return Err;
      }
      var buf := new byte[len](i requires 0 <= i < len reads this, file => file[offset + i]);
      for sector := SectorOf(offset) to SectorOf(end - 1) + 1
        invariant Valid()
        invariant ShownIn(buf[..], offset, sector)
      {
        ShowNext(buf, offset, sector);
      }
      AllShown(buf[..], offset);
      return Ok(buf[..]);
    }

    lemma AllShown(buf: bytes, offset: nat)
      requires Valid() && buf != [] && ShownIn(buf, offset, SectorOf(offset + |buf| - 1) + 1)
      ensures buf == View().visible[offset..offset + |buf|]
    {
      forall b | 0 <= b < |buf| ensures buf[b] == View().visible[offset + b] {
        SectorOrder(offset + b, offset + |buf| - 1, 0);
      }
    }

    /** A buffer standing for the bytes from `offset`, with the sectors before `upto` overlaid. */
    ghost predicate ShownIn(buf: bytes, offset: nat, upto: nat)
      requires Valid()
      reads this, file
    {
      offset + |buf| <= file.Length && forall b :: 0 <= b < |buf| ==> buf[b] == Shown(file[..], overlay, upto, offset + b)
    }

    method ShowNext(buf: array<byte>, offset: nat, sector: nat)
      requires Valid() && buf != file && ShownIn(buf[..], offset, sector)
      modifies buf
      ensures ShownIn(buf[..], offset, sector + 1)
    {
      if sector in overlay {
        LaySector(buf, offset, sector, overlay[sector]);
      }
      forall b | 0 <= b < buf.Length ensures buf[b] == Shown(file[..], overlay, sector + 1, offset + b) {
        ShowSector(file[..], overlay, sector, offset + b);
        assert old(buf[..])[b] == old(buf[b]);
      }
    }

    method Write(offset: nat, data: bytes) returns (r: Result<()>)
      requires Valid()
      modifies this, file
      ensures Valid()
      ensures View() == WriteView(old(View()), offset, data).after
      ensures r.Ok? <==> WriteView(old(View()), offset, data).ok
    {
      if data == [] {
        return Ok(());
      }
      if offset + |data| >= U64_LIMIT {
        return Err;
      }
      var end := offset + |data|;
      if end > file.Length {
        return Err;
      }
      var laid := LaySectors(offset, data);
      if !laid {
        return Err;
      }
      if |overlay| * 512 > OVERLAY_CAP_BYTES {
        Flush();
      }
      r := Ok(());
    }

    method LaySectors(offset: nat, data: bytes) returns (ok: bool)
      requires Valid() && data != [] && offset + |data| <= file.Length
      modifies this`overlay
      ensures Valid()
      ensures ok ==> View() == Accept(old(View()), offset, data) && offset + |data| <= WholeSectors(file.Length)
      ensures !ok ==> WriteView(old(View()), offset, data) == WriteOutcome(false, View())
    {
      ghost var w := Writing(View(), offset, data);
      NoneTaken(file[..], overlay, flushes, offset, data);
      ghost var upto;
      ok, upto := LayFrom(w, offset, data, SectorOf(offset), SectorOf(offset + |data| - 1));
      StageOutcome(w, file.Length, overlay, upto, ok);
    }

    /** The sector loop: it fails where the base read of a sector hits the end of the file. */
    method LayFrom(ghost w: Writing, offset: nat, data: bytes, first: nat, last: nat) returns (ok: bool, ghost upto: nat)
      requires w.before.durable == file[..] && w.offset == offset && w.data == data
      requires Stage(w, file.Length, overlay, first) && last == w.Last()
      modifies this`overlay
      ensures Stage(w, file.Length, overlay, upto)
      ensures ok ==> upto == last + 1
      ensures !ok ==> upto <= last && (upto + 1) * 512 > file.Length
    {
      var sector := first;
      while sector <= last
        invariant Stage(w, file.Length, overlay, sector) && sector <= last + 1
      {
        ok := LayNext(w, offset, data, sector);
        if !ok { return false, sector; }
        sector := sector + 1;
      }
      return true, sector;
    }

    method LayNext(ghost w: Writing, offset: nat, data: bytes, sector: nat) returns (ok: bool)
      requires w.before.durable == file[..] && w.offset == offset && w.data == data
      requires Stage(w, file.Length, overlay, sector) && sector <= w.Last()
      modifies this`overlay
      ensures ok ==> Stage(w, file.Length, overlay, sector + 1)
      ensures !ok ==> overlay == old(overlay) && (sector + 1) * 512 > file.Length
    {
      if sector !in overlay && (sector + 1) * 512 > file.Length {
        return false;
      }
      var held := if sector in overlay then overlay[sector] else SectorAt(file[..], sector);
      StageAdvances(w, file.Length, overlay, sector);
      overlay := overlay[sector := Laid(held, sector, offset, data)];
      ok := true;
    }

    method Flush()
      requires Valid()
      modifies this, file
      ensures Valid() && View() == Commit(old(View()))
    {
      var taken := overlay;
      overlay := map[];
      var left := taken.Keys;
      // The source walks the sectors in ascending order; any order gives the same file.
      while left != {}
        invariant left <= taken.Keys && overlay == map[] && flushes == old(flushes)
        invariant forall i :: 0 <= i < file.Length ==>
          file[i] == if SectorOf(i) in taken.Keys - left then taken[SectorOf(i)][i - SectorOf(i) * 512] else old(file[i])
        decreases |left|
      {
        var sector: nat :| sector in left;
        var data := taken[sector];
        forall i | sector * 512 <= i < sector * 512 + 512 {
          file[i] := data[i - sector * 512];
        }
        left := left - {sector};
      }
      flushes := flushes + 1;
      assert file[..] == old(View()).visible;
      assert View().visible == file[..];
    }

    method PowerCut()
      requires Valid()
      modifies this`overlay
      ensures Valid() && View() == PowerCutView(old(View()))
    {
      overlay := map[];
      assert Overlaid(file[..], map[]) == file[..];
    }
  }
}
