/** Physical-device selection: suitability, the device-local memory total, the ranking
    comparator handed to `std::sort`, and picking the head of the ranked list. The driver's
    answers for each device (properties, memory heaps, queue and extension checks, surface
    support) are inputs. */
module DeviceSelection {
  import opened Wrappers
  import opened VkTypes
  import opened Swapchain

  /** `VkPhysicalDeviceType`. */
  datatype DeviceType = TypeOther | TypeIntegratedGpu | TypeDiscreteGpu | TypeVirtualGpu | TypeCpu

  /** `VK_MEMORY_HEAP_DEVICE_LOCAL_BIT`. */
  const MEMORY_HEAP_DEVICE_LOCAL_BIT: Flags := 1

  datatype MemoryHeap = MemoryHeap(size: u64, flags: Flags)

  datatype MemoryPropertiesRecord = MemoryPropertiesRecord(memoryHeapCount: u32, memoryHeaps: seq<MemoryHeap>)

  /** `VkPhysicalDeviceMemoryProperties`: the first `memoryHeapCount` entries of the heap
      array are the device's heaps. */
  type MemoryProperties = m: MemoryPropertiesRecord | m.memoryHeapCount <= |m.memoryHeaps|
    witness MemoryPropertiesRecord(0, [])

  predicate IsDeviceLocal(h: MemoryHeap)
  {
    h.flags & MEMORY_HEAP_DEVICE_LOCAL_BIT != 0
  }

  /** The exact (unbounded) total size of the device-local heaps in `heaps`. */
  function DeviceLocalTotal(heaps: seq<MemoryHeap>): nat
  {
    if |heaps| == 0 then 0
    else
      var last := heaps[|heaps| - 1];
      DeviceLocalTotal(heaps[..|heaps| - 1]) + (if IsDeviceLocal(last) then last.size else 0)
  }

  /** A device's VRAM as the renderer computes it: the device-local total of its heaps,
      accumulated in a 64-bit `VkDeviceSize`. */
  function Vram(m: MemoryProperties): u64
  {
    AsU64(DeviceLocalTotal(m.memoryHeaps[..m.memoryHeapCount]))
  }

  /** Without device-local heaps the total is 0. */
  lemma {:induction false} NoDeviceLocalHeapsTotalZero(heaps: seq<MemoryHeap>)
    requires forall i :: 0 <= i < |heaps| ==> !IsDeviceLocal(heaps[i])
    ensures DeviceLocalTotal(heaps) == 0
  {
    if |heaps| > 0 {
      NoDeviceLocalHeapsTotalZero(heaps[..|heaps| - 1]);
    }
  }

  /** The VRAM loop of `selectPhysicalDevice`: sums the sizes of the first `memoryHeapCount`
      heaps that carry DEVICE_LOCAL, with `VkDeviceSize` wrap-around. */
  method SumDeviceLocalHeaps(m: MemoryProperties) returns (vramSize: u64)
    ensures vramSize == Vram(m)
    ensures DeviceLocalTotal(m.memoryHeaps[..m.memoryHeapCount]) < U64_LIMIT
            ==> vramSize == DeviceLocalTotal(m.memoryHeaps[..m.memoryHeapCount])
    ensures (forall i :: 0 <= i < m.memoryHeapCount ==> !IsDeviceLocal(m.memoryHeaps[i])) ==> vramSize == 0
  {
    vramSize := 0;
    var i := 0;
    while i < m.memoryHeapCount
      invariant 0 <= i <= m.memoryHeapCount
      invariant vramSize == AsU64(DeviceLocalTotal(m.memoryHeaps[..i]))
    {
      assert m.memoryHeaps[..i + 1][..i] == m.memoryHeaps[..i];
      if m.memoryHeaps[i].flags & MEMORY_HEAP_DEVICE_LOCAL_BIT != 0 {
        vramSize := AsU64(vramSize + m.memoryHeaps[i].size);
      }
      i := i + 1;
    }
    if forall j :: 0 <= j < m.memoryHeapCount ==> !IsDeviceLocal(m.memoryHeaps[j]) {
      NoDeviceLocalHeapsTotalZero(m.memoryHeaps[..m.memoryHeapCount]);
    }
  }

  /** One enumerated device and the driver's answers about it. `queuesAvailable` and
      `extensionsSupported` are the results of `checkQueuesAvailable` and
      `checkDeviceExtensionSupport`, whose bodies are not part of this model. */
  datatype PhysicalDevice = PhysicalDevice(
    handle: Handle,
    deviceType: DeviceType,
    memory: MemoryProperties,
    queuesAvailable: bool,
    extensionsSupported: bool,
    support: SupportDetails)

  /** `isDeviceSuitable`: the swapchain support query is made only once the required
      extensions are known to be supported. */
  function IsDeviceSuitable(d: PhysicalDevice): (r: bool)
    ensures r <==> d.queuesAvailable && d.extensionsSupported &&
                   |d.support.formats| > 0 && |d.support.presentModes| > 0
  {
    var extsSupported := d.extensionsSupported;
    var swapChainAdequate :=
      if extsSupported then |d.support.formats| > 0 && |d.support.presentModes| > 0 else false;
    d.queuesAvailable && extsSupported && swapChainAdequate
  }

  /** A suitable device always offers a format, so `chooseSwapSurfaceFormat` may index it. */
  lemma SuitableDeviceHasSurfaceFormat(d: PhysicalDevice)
    requires IsDeviceSuitable(d)
    ensures |d.support.formats| > 0
    ensures ChooseSwapSurfaceFormat(d.support.formats) in d.support.formats
  {
  }

  /** The local `Candidate` record of `selectPhysicalDevice`. */
  datatype Candidate = Candidate(device: Handle, deviceType: DeviceType, vram: u64)

  function CandidateOf(d: PhysicalDevice): Candidate
  {
    Candidate(d.handle, d.deviceType, Vram(d.memory))
  }

  /** The candidates in enumeration order: the suitable devices only. */
  function Candidates(devices: seq<PhysicalDevice>): (r: seq<Candidate>)
    ensures |r| <= |devices|
    ensures forall c :: c in r ==> exists d :: d in devices && IsDeviceSuitable(d) && c == CandidateOf(d)
    ensures forall d :: d in devices && IsDeviceSuitable(d) ==> CandidateOf(d) in r
  {
    if |devices| == 0 then []
    else
      var init := devices[..|devices| - 1];
      var last := devices[|devices| - 1];
      assert devices == init + [last];
      Candidates(init) + (if IsDeviceSuitable(last) then [CandidateOf(last)] else [])
  }

  /** Filtering commutes with concatenation; with `CandidatesOfOne` this fixes the candidates'
      order and multiplicity to those of the suitable devices in enumeration order. */
  lemma {:induction false} CandidatesKeepEnumerationOrder(a: seq<PhysicalDevice>, b: seq<PhysicalDevice>)
    ensures Candidates(a + b) == Candidates(a) + Candidates(b)
    decreases |b|
  {
    if |b| == 0 {
      assert a + b == a;
    } else {
      var init := b[..|b| - 1];
      var last := b[|b| - 1];
      assert b == init + [last];
      assert a + b == (a + init) + [last];
      CandidatesSnoc(a + init, last);
      CandidatesSnoc(init, last);
      CandidatesKeepEnumerationOrder(a, init);
    }
  }

  /** One more device adds its candidate, if suitable, at the end. */
  lemma CandidatesSnoc(xs: seq<PhysicalDevice>, x: PhysicalDevice)
    ensures Candidates(xs + [x]) == Candidates(xs) + (if IsDeviceSuitable(x) then [CandidateOf(x)] else [])
  {
    var all := xs + [x];
    assert all[..|all| - 1] == xs;
  }

  /** A single device yields its candidate when suitable and nothing otherwise. */
  lemma CandidatesOfOne()
    ensures forall d :: Candidates([d]) == (if IsDeviceSuitable(d) then [CandidateOf(d)] else [])
  {
    forall d
      ensures Candidates([d]) == (if IsDeviceSuitable(d) then [CandidateOf(d)] else [])
    {
      assert [d][..0] == [];
    }
  }

  predicate IsDiscrete(c: Candidate)
  {
    c.deviceType == TypeDiscreteGpu
  }

  /** The comparator passed to `std::sort`: `a` sorts before `b`. A discrete device sorts
      before any other; otherwise the larger VRAM sorts first. */
  function SortsBefore(a: Candidate, b: Candidate): (r: bool)
    ensures IsDiscrete(a) && !IsDiscrete(b) ==> r
    ensures IsDiscrete(b) && !IsDiscrete(a) ==> !r
    ensures IsDiscrete(a) == IsDiscrete(b) ==> (r <==> a.vram > b.vram)
  {
    if a.deviceType == TypeDiscreteGpu && b.deviceType != TypeDiscreteGpu then true
    else if b.deviceType == TypeDiscreteGpu && a.deviceType != TypeDiscreteGpu then false
    else a.vram > b.vram
  }

  /** A single numeric rank: discreteness first, then VRAM. */
  function Rank(c: Candidate): nat
  {
    (if IsDiscrete(c) then U64_LIMIT else 0) + c.vram
  }

  /** The comparator is "higher rank first": lexicographic on (is-discrete, vram), both
      descending. In particular a discrete device beats a non-discrete one whatever their
      VRAM, and integrated, virtual, CPU and other devices are ranked alike. */
  lemma SortsBeforeIsRankOrder(a: Candidate, b: Candidate)
    ensures SortsBefore(a, b) <==> Rank(a) > Rank(b)
    ensures IsDiscrete(a) && !IsDiscrete(b) ==> SortsBefore(a, b)
    ensures IsDiscrete(a) == IsDiscrete(b) ==> (SortsBefore(a, b) <==> a.vram > b.vram)
  {
  }

  /** Neither candidate sorts before the other. */
  predicate Incomparable(a: Candidate, b: Candidate)
  {
    !SortsBefore(a, b) && !SortsBefore(b, a)
  }

  /** The comparator is a strict weak ordering, as `std::sort` requires: irreflexive,
      transitive, and with transitive incomparability (equal rank). */
  lemma SortsBeforeIsStrictWeakOrder()
    ensures forall a :: !SortsBefore(a, a)
    ensures forall a, b, c :: SortsBefore(a, b) && SortsBefore(b, c) ==> SortsBefore(a, c)
    ensures forall a, b, c :: Incomparable(a, b) && Incomparable(b, c) ==> Incomparable(a, c)
    ensures forall a, b :: Incomparable(a, b) <==> Rank(a) == Rank(b)
  {
    forall a, b
      ensures SortsBefore(a, b) <==> Rank(a) > Rank(b)
    {
      SortsBeforeIsRankOrder(a, b);
    }
  }

  /** No candidate in `cs` sorts before `c`. */
  ghost predicate RankedFirst(cs: seq<Candidate>, c: Candidate)
  {
    c in cs && forall x :: x in cs ==> !SortsBefore(x, c)
  }

  /** What `std::sort` guarantees: no element sorts before an earlier one. */
  ghost predicate SortedBy(cs: seq<Candidate>)
  {
    forall i, j :: 0 <= i < j < |cs| ==> !SortsBefore(cs[j], cs[i])
  }

  /** The head of any sorted arrangement is ranked first. */
  lemma SortedHeadIsRankedFirst(cs: seq<Candidate>)
    requires |cs| > 0 && SortedBy(cs)
    ensures RankedFirst(cs, cs[0])
  {
    forall x | x in cs
      ensures !SortsBefore(x, cs[0])
    {
      var j :| 0 <= j < |cs| && cs[j] == x;
      if j > 0 {
        assert !SortsBefore(cs[j], cs[0]);
      }
    }
  }

  /** All candidates ranked first agree on type class and VRAM, so every valid outcome of the
      (unstable) sort selects a device of the same rank. */
  lemma RankedFirstIsUniqueUpToRank(cs: seq<Candidate>, a: Candidate, b: Candidate)
    requires RankedFirst(cs, a) && RankedFirst(cs, b)
    ensures IsDiscrete(a) == IsDiscrete(b) && a.vram == b.vram
  {
    SortsBeforeIsRankOrder(a, b);
    SortsBeforeIsRankOrder(b, a);
  }

  /** Some enumerated device is suitable. */
  predicate AnySuitable(devices: seq<PhysicalDevice>)
  {
    exists d :: d in devices && IsDeviceSuitable(d)
  }

  /** The candidate loop of `selectPhysicalDevice`: each suitable device, in enumeration
      order, with its VRAM. */
  method CollectCandidates(devices: seq<PhysicalDevice>) returns (candidates: seq<Candidate>)
    ensures candidates == Candidates(devices)
  {
    candidates := [];
    var i := 0;
    while i < |devices|
      invariant 0 <= i <= |devices|
      invariant candidates == Candidates(devices[..i])
    {
      var d := devices[i];
      assert devices[..i + 1] == devices[..i] + [d];
      if IsDeviceSuitable(d) {
        var vram := SumDeviceLocalHeaps(d.memory);
        candidates := candidates + [Candidate(d.handle, d.deviceType, vram)];
      }
      i := i + 1;
    }
    assert devices[..|devices|] == devices;
  }

  /** The front of the sorted candidates, found by a scan that keeps the first strictly better
      candidate: no candidate sorts before it, and it sorts before every earlier one. */
  method FirstRanked(cs: seq<Candidate>) returns (best: nat)
    requires |cs| > 0
    ensures best < |cs|
    ensures forall j :: 0 <= j < |cs| ==> !SortsBefore(cs[j], cs[best])
    ensures forall j :: 0 <= j < best ==> SortsBefore(cs[best], cs[j])
  {
    best := 0;
    var k := 1;
    while k < |cs|
      invariant 1 <= k <= |cs|
      invariant best < k
      invariant forall j :: 0 <= j < k ==> !SortsBefore(cs[j], cs[best])
      invariant forall j :: 0 <= j < best ==> SortsBefore(cs[best], cs[j])
    {
      if SortsBefore(cs[k], cs[best]) {
        best := k;
      }
      k := k + 1;
    }
  }

  /** `selectPhysicalDevice`: fails when there are no devices or no suitable device;
      otherwise returns a candidate no other candidate sorts before, the first such in
      enumeration order (the head `std::sort` leaves is one of equal rank, see
      `RankedFirstIsUniqueUpToRank`). */
  method SelectPhysicalDevice(devices: seq<PhysicalDevice>) returns (selected: Result<Candidate, Fatal>)
    ensures selected == Failure(NoPhysicalDevices) <==> |devices| == 0
    ensures selected == Failure(NoSuitablePhysicalDevice) <==> |devices| > 0 && !AnySuitable(devices)
    ensures selected.Failure? ==> selected.error == NoPhysicalDevices || selected.error == NoSuitablePhysicalDevice
    ensures selected.Success? ==> RankedFirst(Candidates(devices), selected.value)
  {
    if |devices| == 0 {
      selected := Failure(NoPhysicalDevices);
    } else {
      var candidates := CollectCandidates(devices);
      if |candidates| == 0 {
        selected := Failure(NoSuitablePhysicalDevice);
      } else {
        var best := FirstRanked(candidates);
        assert candidates[best] in candidates;
        selected := Success(candidates[best]);
      }
    }
  }

  /** The selected device is discrete whenever some suitable device is discrete, and no
      suitable device of its class has more VRAM. */
  lemma SelectedDeviceIsBest(devices: seq<PhysicalDevice>, chosen: Candidate)
    requires RankedFirst(Candidates(devices), chosen)
    ensures exists d :: d in devices && IsDeviceSuitable(d) && CandidateOf(d) == chosen
    ensures (exists d :: d in devices && IsDeviceSuitable(d) && d.deviceType == TypeDiscreteGpu)
            ==> chosen.deviceType == TypeDiscreteGpu
    ensures forall d :: (d in devices && IsDeviceSuitable(d) && IsDiscrete(CandidateOf(d)) == IsDiscrete(chosen)
                         ==> Vram(d.memory) <= chosen.vram)
  {
    var cs := Candidates(devices);
    forall d | d in devices && IsDeviceSuitable(d)
      ensures !SortsBefore(CandidateOf(d), chosen)
    {
      assert CandidateOf(d) in cs;
    }
  }
}
