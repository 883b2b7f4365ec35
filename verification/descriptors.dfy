/** The descriptor-set layout builder and the descriptor allocator. The builder accumulates
    bindings and, on `build`, ORs the requested shader stages into every accumulated binding in
    place before handing the list to the driver. The allocator sizes its pool from
    (type, ratio) pairs and allocates one set per request. Driver calls are inputs. */
module Descriptors {
  import opened Wrappers
  import opened VkTypes

  /** `VkDescriptorSetLayoutBinding` (no immutable samplers). */
  datatype LayoutBinding = LayoutBinding(
    binding: u32,
    descriptorType: DescriptorType,
    descriptorCount: u32,
    stageFlags: Flags)

  /** `DescriptorLayoutBuilder`: the bindings accumulated so far, in insertion order. */
  datatype LayoutBuilder = LayoutBuilder(bindings: seq<LayoutBinding>)

  /** `addBinding`: appends one single-descriptor binding with no stage flags yet. */
  function AddBinding(b: LayoutBuilder, binding: u32, dtype: DescriptorType): (r: LayoutBuilder)
    ensures |r.bindings| == |b.bindings| + 1
    ensures r.bindings[..|b.bindings|] == b.bindings
    ensures r.bindings[|b.bindings|] == LayoutBinding(binding, dtype, 1, 0)
  {
    LayoutBuilder(b.bindings + [LayoutBinding(binding := binding, descriptorType := dtype,
                                              descriptorCount := 1, stageFlags := 0)])
  }

  /** `clear`: forgets every accumulated binding. */
  function Clear(b: LayoutBuilder): (r: LayoutBuilder)
    ensures r.bindings == []
  {
    LayoutBuilder([])
  }

  /** A caller's sequence of `addBinding` calls, one per (binding index, type) pair. */
  function AddBindings(b: LayoutBuilder, pairs: seq<(u32, DescriptorType)>): LayoutBuilder
    decreases |pairs|
  {
    if |pairs| == 0 then b
    else AddBindings(AddBinding(b, pairs[0].0, pairs[0].1), pairs[1..])
  }

  /** The binding `addBinding(index, type)` contributes. */
  function Fresh(pair: (u32, DescriptorType)): LayoutBinding
  {
    LayoutBinding(pair.0, pair.1, 1, 0)
  }

  /** Successive `addBinding` calls keep earlier bindings and append one entry per call, in
      call order. */
  lemma {:induction false} AddBindingsAppendsInOrder(b: LayoutBuilder, pairs: seq<(u32, DescriptorType)>)
    ensures |AddBindings(b, pairs).bindings| == |b.bindings| + |pairs|
    ensures AddBindings(b, pairs).bindings == b.bindings + seq(|pairs|, i requires 0 <= i < |pairs| => Fresh(pairs[i]))
    decreases |pairs|
  {
    if |pairs| > 0 {
      var b1 := AddBinding(b, pairs[0].0, pairs[0].1);
      AddBindingsAppendsInOrder(b1, pairs[1..]);
      assert b1.bindings == b.bindings + [Fresh(pairs[0])];
      var tail := seq(|pairs| - 1, i requires 0 <= i < |pairs| - 1 => Fresh(pairs[1..][i]));
      var whole := seq(|pairs|, i requires 0 <= i < |pairs| => Fresh(pairs[i]));
      assert whole == [Fresh(pairs[0])] + tail;
    }
  }

  /** `VkDescriptorSetLayoutCreateInfo`. */
  datatype LayoutCreateInfo = LayoutCreateInfo(
    pNext: Handle,
    flags: Flags,
    bindingCount: u32,
    bindings: seq<LayoutBinding>)

  /** The outcome of `build`: the builder after its in-place update, the create info handed to
      `vkCreateDescriptorSetLayout`, and the layout (or the `VK_CHECK` abort). */
  datatype Built = Built(builder: LayoutBuilder, info: LayoutCreateInfo, layout: Result<Handle, Fatal>)

  /** `b` with `stages` ORed into every binding's stage flags. */
  function WithStages(b: LayoutBuilder, stages: Flags): (r: LayoutBuilder)
    ensures |r.bindings| == |b.bindings|
    ensures forall i :: 0 <= i < |b.bindings| ==>
              r.bindings[i] == b.bindings[i].(stageFlags := b.bindings[i].stageFlags | stages)
  {
    LayoutBuilder(seq(|b.bindings|, i requires 0 <= i < |b.bindings| =>
      b.bindings[i].(stageFlags := b.bindings[i].stageFlags | stages)))
  }

  /** `build`. `createResult` and `created` are the outcome of `vkCreateDescriptorSetLayout`. */
  function Build(b: LayoutBuilder, shaderStages: Flags, pNext: Handle, flags: Flags,
                 createResult: VkResult, created: Handle): (r: Built)
    ensures |r.builder.bindings| == |b.bindings|
    ensures forall i :: 0 <= i < |b.bindings| ==>
              && r.builder.bindings[i].binding == b.bindings[i].binding
              && r.builder.bindings[i].descriptorType == b.bindings[i].descriptorType
              && r.builder.bindings[i].descriptorCount == b.bindings[i].descriptorCount
              && r.builder.bindings[i].stageFlags == b.bindings[i].stageFlags | shaderStages
    ensures r.info.bindings == r.builder.bindings
    ensures |b.bindings| < U32_LIMIT ==> r.info.bindingCount == |b.bindings|
    ensures r.info.pNext == pNext && r.info.flags == flags
    ensures r.layout.Success? <==> createResult == VK_SUCCESS
    ensures r.layout.Success? ==> r.layout.value == created
  {
    var updated := WithStages(b, shaderStages);
    var info := LayoutCreateInfo(pNext := pNext, flags := flags,
                                 bindingCount := AsU32(|updated.bindings|), bindings := updated.bindings);
    Built(updated, info, VkCheck(createResult, created))
  }

  /** Building twice accumulates: the second build's bindings carry the union of both stage
      masks, not the second mask alone. */
  lemma BuildTwiceUnionsStages(b: LayoutBuilder, s1: Flags, s2: Flags, pNext: Handle, flags: Flags,
                               res1: VkResult, h1: Handle, res2: VkResult, h2: Handle)
    ensures var once := Build(b, s1, pNext, flags, res1, h1).builder;
            var twice := Build(once, s2, pNext, flags, res2, h2).builder;
            |twice.bindings| == |b.bindings| &&
            forall i :: 0 <= i < |b.bindings| ==>
              twice.bindings[i].stageFlags == b.bindings[i].stageFlags | s1 | s2
  {
  }

  /** Building again with the same mask leaves the builder as it was. */
  lemma BuildIsIdempotent(b: LayoutBuilder, stages: Flags, pNext: Handle, flags: Flags,
                          res1: VkResult, h1: Handle, res2: VkResult, h2: Handle)
    ensures var once := Build(b, stages, pNext, flags, res1, h1).builder;
            Build(once, stages, pNext, flags, res2, h2).builder == once
  {
  }

  /** `PoolSizeRatio`; the `float` ratio is represented by a real number. */
  datatype PoolSizeRatio = PoolSizeRatio(descriptorType: DescriptorType, ratio: real)

  /** `VkDescriptorPoolSize`. */
  datatype PoolSize = PoolSize(descriptorType: DescriptorType, descriptorCount: u32)

  /** `VkDescriptorPoolCreateInfo`. */
  datatype PoolCreateInfo = PoolCreateInfo(
    flags: Flags,
    maxSets: u32,
    poolSizeCount: u32,
    poolSizes: seq<PoolSize>)

  datatype DescriptorAllocator = DescriptorAllocator(pool: Handle)

  datatype PoolInit = PoolInit(allocator: DescriptorAllocator, info: PoolCreateInfo)

  /** `initPool`. `scaledCount(ratio, maxSets)` stands for the floating-point
      `uint32_t(ratio * maxSets)`. The result of `vkCreateDescriptorPool` is not checked, so
      there is no failure path: the allocator keeps whatever handle the driver wrote. */
  function InitPool(maxSets: u32, poolRatios: seq<PoolSizeRatio>, scaledCount: (real, u32) -> u32,
                    created: Handle): (r: PoolInit)
    ensures |r.info.poolSizes| == |poolRatios|
    ensures forall i :: 0 <= i < |poolRatios| ==>
              r.info.poolSizes[i] == PoolSize(poolRatios[i].descriptorType, scaledCount(poolRatios[i].ratio, maxSets))
    ensures |poolRatios| < U32_LIMIT ==> r.info.poolSizeCount == |poolRatios|
    ensures r.info.maxSets == maxSets && r.info.flags == 0
    ensures r.allocator.pool == created
  {
    var poolSizes := seq(|poolRatios|, i requires 0 <= i < |poolRatios| =>
      PoolSize(descriptorType := poolRatios[i].descriptorType,
               descriptorCount := scaledCount(poolRatios[i].ratio, maxSets)));
    var info := PoolCreateInfo(flags := 0, maxSets := maxSets,
                               poolSizeCount := AsU32(|poolSizes|), poolSizes := poolSizes);
    PoolInit(DescriptorAllocator(created), info)
  }

  /** The pool offers exactly the descriptor types named by the ratios. */
  lemma PoolOffersExactlyRatioTypes(maxSets: u32, poolRatios: seq<PoolSizeRatio>,
                                    scaledCount: (real, u32) -> u32, created: Handle, t: DescriptorType)
    ensures (exists i :: 0 <= i < |poolRatios| && InitPool(maxSets, poolRatios, scaledCount, created).info.poolSizes[i].descriptorType == t)
            <==> (exists i :: 0 <= i < |poolRatios| && poolRatios[i].descriptorType == t)
  {
    var info := InitPool(maxSets, poolRatios, scaledCount, created).info;
    if i :| 0 <= i < |poolRatios| && poolRatios[i].descriptorType == t {
      assert info.poolSizes[i].descriptorType == t;
    }
  }

  /** An allocator set up by `initPool` allocates from the pool `vkCreateDescriptorPool`
      returned, whatever layout is requested. */
  lemma AllocateDrawsFromInitPool(maxSets: u32, poolRatios: seq<PoolSizeRatio>, scaledCount: (real, u32) -> u32,
                                  created: Handle, layout: Handle, allocResult: VkResult, newSet: Handle)
    ensures var a := InitPool(maxSets, poolRatios, scaledCount, created).allocator;
            Allocate(a, layout, allocResult, newSet).request ==
            SetAllocateInfo(NULL_HANDLE, created, 1, [layout])
  {
  }

  /** `VkDescriptorSetAllocateInfo`. */
  datatype SetAllocateInfo = SetAllocateInfo(
    pNext: Handle,
    descriptorPool: Handle,
    descriptorSetCount: u32,
    setLayouts: seq<Handle>)

  datatype Allocation = Allocation(request: SetAllocateInfo, descriptorSet: Result<Handle, Fatal>)

  /** `allocate`: one set with `layout` from this allocator's pool. `allocResult` and `newSet`
      are the outcome of `vkAllocateDescriptorSets`; a failure aborts. */
  function Allocate(a: DescriptorAllocator, layout: Handle, allocResult: VkResult, newSet: Handle): (r: Allocation)
    ensures r.request.descriptorPool == a.pool
    ensures r.request.descriptorSetCount == 1 && r.request.setLayouts == [layout]
    ensures r.request.pNext == NULL_HANDLE
    ensures r.descriptorSet.Success? <==> allocResult == VK_SUCCESS
    ensures r.descriptorSet.Success? ==> r.descriptorSet.value == newSet
  {
    var info := SetAllocateInfo(pNext := NULL_HANDLE, descriptorPool := a.pool,
                                descriptorSetCount := 1, setLayouts := [layout]);
    Allocation(info, VkCheck(allocResult, newSet))
  }
}
