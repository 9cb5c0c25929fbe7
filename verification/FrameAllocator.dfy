/** The first-fit physical frame allocator of src/kernel/memory_manager.cpp: one bit per
    4 KiB frame, kept in an array of 64-bit lines. */
module FrameAllocator {

  const BYTES_PER_FRAME: nat := 4096
  const BITS_PER_LINE: nat := 64
  const FRAME_COUNT: nat := 0x200_0000 // 128 GiB of 4 KiB frames
  const HEAP_FRAMES: nat := 64 * 512

  datatype Option<T> = None | Some(value: T)

  /** One `unsigned long` of the bitmap; element b is bit b. */
  type Line = s: seq<bool> | |s| == BITS_PER_LINE witness seq(BITS_PER_LINE, _ => false)

  /** The n consecutive frames from start on. */
  ghost function Frames(start: nat, n: nat): (r: set<nat>)
    ensures forall k: nat :: k in r <==> start <= k < start + n
  {
    if n == 0 then {} else Frames(start, n - 1) + {start + n - 1}
  }

  /** A UEFI memory descriptor; `available` is IsAvailable(type). */
  datatype Descriptor = Descriptor(available: bool, physicalStart: nat, numberOfPages: nat) {
    function End(): nat { physicalStart + numberOfPages * BYTES_PER_FRAME }

    ghost function First(): nat { physicalStart / BYTES_PER_FRAME }

    ghost predicate Covers(frame: nat) { First() <= frame < First() + numberOfPages }
  }

  /** Page-aligned descriptors in address order, pairwise disjoint, none straddling the end of
      the bitmap's reach (those wholly beyond it are skipped). */
  ghost predicate WellFormedMap(ds: seq<Descriptor>) {
    && (forall i | 0 <= i < |ds| ::
          && ds[i].physicalStart % BYTES_PER_FRAME == 0
          && (ds[i].First() < FRAME_COUNT ==> ds[i].First() + ds[i].numberOfPages <= FRAME_COUNT))
    && (forall i, j | 0 <= i < j < |ds| :: ds[i].First() + ds[i].numberOfPages <= ds[j].First())
  }

  /** Some available descriptor covers the frame. */
  ghost predicate InAvailable(ds: seq<Descriptor>, frame: nat) {
    frame < FRAME_COUNT && exists i | 0 <= i < |ds| :: ds[i].available && ds[i].Covers(frame)
  }

  /** The scan has met ds[..i]; below frame `end` those not in `used` are the available ones. */
  ghost predicate Scanned(ds: seq<Descriptor>, i: nat, used: set<nat>, end: nat)
    requires i <= |ds|
  {
    && end <= FRAME_COUNT
    && (forall j | i <= j < |ds| :: end <= ds[j].First())
    && (forall k: nat | InAvailable(ds[..i], k) :: k < end)
    && (forall k: nat | k < end :: k !in used <==> InAvailable(ds[..i], k))
    && (forall k: nat | k in used :: !InAvailable(ds, k))
  }

  /** What one descriptor adds to the used frames. */
  ghost function Marked(d: Descriptor, end: nat): set<nat>
    requires end <= d.First()
  {
    if d.First() >= FRAME_COUNT then {} else
    Frames(end, d.First() - end) + if d.available then {} else Frames(d.First(), d.numberOfPages)
  }

  lemma InAvailableStep(ds: seq<Descriptor>, i: nat, k: nat)
    requires i < |ds| && k < FRAME_COUNT
    ensures InAvailable(ds[..i + 1], k) <==> InAvailable(ds[..i], k) || (ds[i].available && ds[i].Covers(k))
  {
    assert ds[..i + 1][i] == ds[i];
    assert forall j | 0 <= j < i :: ds[..i + 1][j] == ds[..i][j];
  }

  /** No available descriptor but ds[i] reaches below the end of ds[i] past `end`. */
  lemma GapIsUnavailable(ds: seq<Descriptor>, i: nat, used: set<nat>, end: nat, k: nat)
    requires WellFormedMap(ds) && i < |ds| && Scanned(ds, i, used, end)
    requires end <= k < ds[i].First() + ds[i].numberOfPages
    ensures InAvailable(ds, k) ==> ds[i].available && ds[i].Covers(k)
  {
    assert forall j | 0 <= j < i :: ds[..i][j] == ds[j];
    assert !InAvailable(ds[..i], k);
  }

  lemma ScanStep(ds: seq<Descriptor>, i: nat, used: set<nat>, end: nat)
    requires WellFormedMap(ds) && i < |ds| && Scanned(ds, i, used, end)
    ensures end <= ds[i].First()
    ensures ds[i].First() < FRAME_COUNT ==> ds[i].First() + ds[i].numberOfPages <= FRAME_COUNT
    ensures var d := ds[i];
            Scanned(ds, i + 1, used + Marked(d, end),
                    if d.available && d.First() < FRAME_COUNT then d.First() + d.numberOfPages else end)
  {
    var d := ds[i];
    var end' := if d.available && d.First() < FRAME_COUNT then d.First() + d.numberOfPages else end;
    var met := ds[..i + 1];
    forall k: nat | k < FRAME_COUNT
      ensures InAvailable(met, k) ==> k < end'
      ensures k < end' ==> (k !in used + Marked(d, end) <==> InAvailable(met, k))
      ensures k in Marked(d, end) ==> !InAvailable(ds, k)
    {
      InAvailableStep(ds, i, k);
      if k in Marked(d, end) {
        GapIsUnavailable(ds, i, used, end, k);
      }
    }
  }

  /** Page-aligned byte addresses counted in frames. */
  lemma InFrames(d: Descriptor, end: nat)
    requires d.physicalStart % BYTES_PER_FRAME == 0 && end % BYTES_PER_FRAME == 0
    ensures d.physicalStart >= FRAME_COUNT * BYTES_PER_FRAME <==> d.First() >= FRAME_COUNT
    ensures end < d.physicalStart <==> end / BYTES_PER_FRAME < d.First()
    ensures end < d.physicalStart ==> (d.physicalStart - end) / BYTES_PER_FRAME == d.First() - end / BYTES_PER_FRAME
    ensures d.numberOfPages * BYTES_PER_FRAME / BYTES_PER_FRAME == d.numberOfPages
    ensures d.End() % BYTES_PER_FRAME == 0 && d.End() / BYTES_PER_FRAME == d.First() + d.numberOfPages
  {
    var a, b, n := d.First(), end / BYTES_PER_FRAME, d.numberOfPages;
    assert d.physicalStart == a * BYTES_PER_FRAME && end == b * BYTES_PER_FRAME;
    Exactly(n);
    Exactly(a + n);
    if b < a {
      Exactly(a - b);
    }
  }

  lemma Exactly(frames: nat)
    ensures frames * BYTES_PER_FRAME / BYTES_PER_FRAME == frames && frames * BYTES_PER_FRAME % BYTES_PER_FRAME == 0
  {
  }

  lemma ScanEnds(ds: seq<Descriptor>, used: set<nat>, end: nat)
    ensures Scanned(ds, 0, {}, 0)
    ensures Scanned(ds, |ds|, used, end) ==>
              && end <= FRAME_COUNT
              && (forall k: nat | k < end :: k !in used <==> InAvailable(ds, k))
              && (forall k: nat | InAvailable(ds, k) :: k < end)
  {
    assert ds[..|ds|] == ds;
  }

  class BitmapMemoryManager {
    const allocMap: array<Line>
    var rangeBegin: nat
    var rangeEnd: nat

    ghost predicate Valid()
      reads this
    {
      allocMap.Length * BITS_PER_LINE == FRAME_COUNT && rangeEnd <= FRAME_COUNT
    }

    ghost predicate IsAllocated(frame: nat)
      requires Valid() && frame < FRAME_COUNT
      reads this, allocMap
    {
      allocMap[frame / BITS_PER_LINE][frame % BITS_PER_LINE]
    }

    ghost function Allocated(): (r: set<nat>)
      requires Valid()
      reads this, allocMap
      ensures forall k | k in r :: k < FRAME_COUNT
    {
      set k: nat | k < FRAME_COUNT && IsAllocated(k)
    }

    /** Frames s .. s+n are all inside the range and free. */
    ghost predicate FreeRun(s: nat, n: nat)
      requires Valid()
      reads this, allocMap
    {
      rangeBegin <= s && s + n <= rangeEnd && forall k | s <= k < s + n :: !IsAllocated(k)
    }

    constructor ()
      ensures Valid() && Allocated() == {} && fresh(allocMap)
      ensures rangeBegin == 0 && rangeEnd == FRAME_COUNT
    {
      allocMap := new Line[FRAME_COUNT / BITS_PER_LINE](_ => seq(BITS_PER_LINE, _ => false));
      rangeBegin, rangeEnd := 0, FRAME_COUNT;
    }

    method GetBit(frame: nat) returns (used: bool)
      requires Valid() && frame < FRAME_COUNT
      ensures used == IsAllocated(frame)
    {
      var lineIndex := frame / BITS_PER_LINE;
      var bitIndex := frame % BITS_PER_LINE;
      used := allocMap[lineIndex][bitIndex];
    }

    method SetBit(frame: nat, used: bool)
      requires Valid() && frame < FRAME_COUNT
      modifies allocMap
      ensures forall k: nat | k < FRAME_COUNT ::
                IsAllocated(k) == if k == frame then used else old(IsAllocated(k))
      ensures Allocated() == if used then old(Allocated()) + {frame} else old(Allocated()) - {frame}
    {
      var lineIndex := frame / BITS_PER_LINE;
      var bitIndex := frame % BITS_PER_LINE;
      allocMap[lineIndex] := allocMap[lineIndex][bitIndex := used];
    }

    method MarkAllocated(startFrame: nat, numFrames: nat)
      requires Valid() && startFrame + numFrames <= FRAME_COUNT
      modifies allocMap
      ensures Allocated() == old(Allocated()) + Frames(startFrame, numFrames)
    {
      for i := 0 to numFrames
        invariant Allocated() == old(Allocated()) + Frames(startFrame, i)
      {
        SetBit(startFrame + i, true);
      }
    }

    method Free(startFrame: nat, numFrames: nat)
      requires Valid() && startFrame + numFrames <= FRAME_COUNT
      modifies allocMap
      ensures Allocated() == old(Allocated()) - Frames(startFrame, numFrames)
    {
      for i := 0 to numFrames
        invariant Allocated() == old(Allocated()) - Frames(startFrame, i)
      {
        SetBit(startFrame + i, false);
      }
    }

    /** First fit: the least run of free frames in the range is found and marked, and the
        call fails, changing nothing, exactly when there is no such run. */
    method Allocate(numFrames: nat) returns (r: Option<nat>)
      requires Valid()
      modifies allocMap
      ensures numFrames == 0 ==> r == Some(rangeBegin)
      ensures numFrames > 0 && r.Some? ==> old(FreeRun(r.value, numFrames))
      ensures r.Some? ==> forall t: nat | t < r.value && numFrames > 0 :: !old(FreeRun(t, numFrames))
      ensures r.Some? ==>
                Allocated() == old(Allocated()) + Frames(r.value, numFrames)
      ensures numFrames > 0 && r.None? ==> forall t: nat :: !old(FreeRun(t, numFrames))
      ensures r.None? ==> Allocated() == old(Allocated()) && allocMap[..] == old(allocMap[..])
    {
      var startFrame := rangeBegin;
      while true
        invariant rangeBegin <= startFrame
        invariant allocMap[..] == old(allocMap[..]) && Allocated() == old(Allocated())
        invariant numFrames == 0 ==> startFrame == rangeBegin
        invariant numFrames > 0 ==> forall t: nat | t < startFrame :: !old(FreeRun(t, numFrames))
        decreases rangeEnd - startFrame
      {
        var i := 0;
        while i < numFrames
          invariant 0 <= i <= numFrames
          invariant i > 0 ==> startFrame + i <= rangeEnd
          invariant forall k | startFrame <= k < startFrame + i :: !old(IsAllocated(k))
          modifies {}
        {
          if startFrame + i >= rangeEnd {
            return None;
          }
          var used := GetBit(startFrame + i);
          if used {
            assert allocMap[..][(startFrame + i) / BITS_PER_LINE] == old(allocMap[..])[(startFrame + i) / BITS_PER_LINE];
            assert old(IsAllocated(startFrame + i));
            break;
          }
          i := i + 1;
        }
        if i == numFrames {
          if numFrames > 0 {
            MarkAllocated(startFrame, numFrames);
          }
          return Some(startFrame);
        }
        startFrame := startFrame + i + 1;
      }
    }

    method SetMemoryRange(begin: nat, end: nat)
      requires Valid() && end <= FRAME_COUNT
      modifies this`rangeBegin, this`rangeEnd
      ensures Valid() && rangeBegin == begin && rangeEnd == end
    {
      rangeBegin, rangeEnd := begin, end;
    }
  }

  /** Takes the kernel heap: the first run of HEAP_FRAMES free frames. */
  method InitializeHeap(m: BitmapMemoryManager) returns (heap: Option<nat>)
    requires m.Valid()
    modifies m.allocMap
    ensures heap.Some? ==> old(m.FreeRun(heap.value, HEAP_FRAMES))
    ensures m.Allocated() == old(m.Allocated()) + if heap.None? then {} else Frames(heap.value, HEAP_FRAMES)
  {
    heap := m.Allocate(HEAP_FRAMES);
  }

  /** The body of InitializeMemoryManager's loop over the descriptors. */
  method ScanDescriptor(m: BitmapMemoryManager, d: Descriptor, availableEnd: nat) returns (end: nat)
    requires m.Valid() && availableEnd % BYTES_PER_FRAME == 0 && d.physicalStart % BYTES_PER_FRAME == 0
    requires availableEnd / BYTES_PER_FRAME <= d.First()
    requires d.First() < FRAME_COUNT ==> d.First() + d.numberOfPages <= FRAME_COUNT
    modifies m.allocMap
    ensures m.Allocated() == old(m.Allocated()) + Marked(d, availableEnd / BYTES_PER_FRAME)
    ensures end % BYTES_PER_FRAME == 0
    ensures end / BYTES_PER_FRAME ==
            if d.available && d.First() < FRAME_COUNT then d.First() + d.numberOfPages else availableEnd / BYTES_PER_FRAME
  {
    InFrames(d, availableEnd);
    end := availableEnd;
    if d.physicalStart >= FRAME_COUNT * BYTES_PER_FRAME {
      return;
    }
    if availableEnd < d.physicalStart {
      m.MarkAllocated(availableEnd / BYTES_PER_FRAME, (d.physicalStart - availableEnd) / BYTES_PER_FRAME);
    }
    if d.available {
      end := d.physicalStart + d.numberOfPages * BYTES_PER_FRAME;
    } else {
      m.MarkAllocated(d.physicalStart / BYTES_PER_FRAME, d.numberOfPages * BYTES_PER_FRAME / BYTES_PER_FRAME);
    }
  }

  /** Builds the allocator from the firmware's map. Below the end of the last available
      descriptor a frame is left free exactly when an available descriptor covers it; the
      heap is then taken from frames that available descriptors cover. */
  method InitializeMemoryManager(ds: seq<Descriptor>)
      returns (m: BitmapMemoryManager, heap: Option<nat>, ghost before: set<nat>)
    requires WellFormedMap(ds)
    ensures m.Valid() && fresh(m) && fresh(m.allocMap) && m.rangeBegin == 1
    ensures forall k: nat | k < m.rangeEnd :: k !in before <==> InAvailable(ds, k)
    ensures forall k: nat | InAvailable(ds, k) :: k < m.rangeEnd
    ensures m.Allocated() == before + if heap.None? then {} else Frames(heap.value, HEAP_FRAMES)
    ensures heap.Some? ==> forall k | k in Frames(heap.value, HEAP_FRAMES) :: InAvailable(ds, k)
  {
    hide InAvailable, Scanned, Descriptor.First, Marked;
    m := new BitmapMemoryManager();
    var availableEnd: nat := 0;
    ScanEnds(ds, {}, 0);
    for i := 0 to |ds|
      invariant m.Valid() && fresh(m) && fresh(m.allocMap)
      invariant availableEnd % BYTES_PER_FRAME == 0
      invariant Scanned(ds, i, m.Allocated(), availableEnd / BYTES_PER_FRAME)
    {
      ScanStep(ds, i, m.Allocated(), availableEnd / BYTES_PER_FRAME);
      availableEnd := ScanDescriptor(m, ds[i], availableEnd);
    }
    ScanEnds(ds, m.Allocated(), availableEnd / BYTES_PER_FRAME);
    m.SetMemoryRange(1, availableEnd / BYTES_PER_FRAME);
    before := m.Allocated();
    heap := InitializeHeap(m);
  }
}
