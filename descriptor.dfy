/** Per-resource descriptor logic (src/shader/descriptor.rs): the mapping
    of reflected types to descriptor kinds, the aligned field tables, the
    descriptors and push-constant blocks built from one reflected resource,
    and the write records made from them. */
module Descriptors {
  import opened Collections
  import R = Reflection
  import opened Arithmetic

  /** The `VkDescriptorType` values this code produces. */
  datatype DescriptorType = Sampler | CombinedImageSampler | SampledImage | UniformBuffer

  /** The array dimensions of a reflected type (none for the types that carry
      no array). */
  function ArrayDims(t: R.ReflectedType): seq<nat> {
    match t
    case Scalar(_, a) => a
    case Struct(a, _) => a
    case Image(a) => a
    case SampledImage(a) => a
    case Sampler(a) => a
    case _ => []
  }

  /** `cross_to_ash`: the descriptor kind and count of a reflected type, or
      `None` where the source reaches `unimplemented!()`. The count is the
      number of array dimensions, raised to at least 1. */
  function CrossToAsh(t: R.ReflectedType): (r: Option<(DescriptorType, nat)>)
    ensures r.None? <==> t.Unsupported?
    ensures r.Some? ==> r.value.1 >= 1
    ensures r.Some? && ArrayDims(t) != [] ==> r.value.1 == |ArrayDims(t)|
    ensures r.Some? && ArrayDims(t) == [] ==> r.value.1 == 1
    ensures t.Image? ==> r.value.0 == SampledImage
    ensures t.SampledImage? ==> r.value.0 == CombinedImageSampler
    ensures t.Sampler? ==> r.value.0 == Sampler
    ensures t.Struct? || t.Scalar? || t.Unknown? || t.Void? ==> r.value.0 == UniformBuffer
  {
    var raw: Option<(DescriptorType, nat)> :=
      match t
      case Image(a) => Some((SampledImage, |a|))
      case SampledImage(a) => Some((CombinedImageSampler, |a|))
      case Sampler(a) => Some((Sampler, |a|))
      case Struct(a, _) => Some((UniformBuffer, |a|))
      case Unknown => Some((UniformBuffer, 1))
      case Void => Some((UniformBuffer, 1))
      case Scalar(_, a) => Some((UniformBuffer, |a|))
      case Unsupported => None;
    if raw.None? then None
    else Some((raw.value.0, if raw.value.1 < 1 then 1 else raw.value.1))
  }

  /** The declared offset rounded up to a multiple of the device's minimum
      offset alignment. */
  function AlignUp(offset: nat, minOffset: nat): (r: nat)
    requires minOffset > 0
    ensures r % minOffset == 0
    ensures offset <= r < offset + minOffset
    ensures offset % minOffset == 0 ==> r == offset
  {
    var modulo := offset % minOffset;
    if modulo != 0 then
      var q := offset / minOffset;
      DivModUnique(offset + (minOffset - modulo), minOffset, q + 1, 0);
      offset + (minOffset - modulo)
    else offset
  }

  /** No smaller multiple of the alignment lies at or above the declared
      offset, and an alignment of 1 leaves every offset as declared. */
  lemma AlignUpIsLeast(offset: nat, minOffset: nat, m: nat)
    requires minOffset > 0
    requires m % minOffset == 0 && m >= offset
    ensures AlignUp(offset, minOffset) <= m
    ensures AlignUp(offset, 1) == offset
  {
    var q := offset / minOffset;
    var j := m / minOffset;
    if offset % minOffset != 0 {
      if j <= q {
        MulMonotone(j, q, minOffset);
      }
      MulMonotone(q + 1, j, minOffset);
    }
  }

  /** One field of a structured resource. */
  datatype DescField = DescField(index: nat, offset: nat, size: nat, ty: DescriptorType, count: nat)

  /** The field `DescField::new` makes for member `index` of a block, or
      `None` where the source panics: the member's type is unsupported by
      `cross_to_ash`, or the alignment is 0 and `%` divides by zero. */
  function FieldOf(m: R.Member, index: nat, minOffset: nat): (f: Option<DescField>)
    ensures f.Some? <==> !m.ty.Unsupported? && minOffset > 0
    ensures f.Some? ==> f.value.index == index && f.value.size == m.size
    ensures f.Some? ==> f.value.offset % minOffset == 0
    ensures f.Some? ==> m.offset <= f.value.offset < m.offset + minOffset
    ensures f.Some? ==> (f.value.ty, f.value.count) == CrossToAsh(m.ty).value
  {
    var tc := CrossToAsh(m.ty);
    if tc.None? || minOffset == 0 then None
    else Some(DescField(index, AlignUp(m.offset, minOffset), m.size, tc.value.0, tc.value.1))
  }

  /** `DescField::new`: adjusts the declared offset in place. */
  method NewField(m: R.Member, index: nat, minOffset: nat) returns (f: Option<DescField>)
    ensures f == FieldOf(m, index, minOffset)
  {
    var tc := CrossToAsh(m.ty);
    if tc.None? || minOffset == 0 {
      return None;
    }
    var offset := m.offset;
    var modulo := offset % minOffset;
    if modulo != 0 {
      offset := offset + (minOffset - modulo);
    }
    f := Some(DescField(index, offset, m.size, tc.value.0, tc.value.1));
  }

  /** Every member of a block yields a field. */
  predicate AllFields(members: seq<R.Member>, minOffset: nat) {
    forall i | 0 <= i < |members| :: FieldOf(members[i], i, minOffset).Some?
  }

  /** The (name, field) pairs of a block's members, in declaration order. */
  function FieldEntries(members: seq<R.Member>, minOffset: nat): (e: seq<(string, DescField)>)
    requires AllFields(members, minOffset)
  {
    seq(|members|, i requires 0 <= i < |members| => (members[i].name, FieldOf(members[i], i, minOffset).value))
  }

  lemma FieldEntriesSnoc(ms: seq<R.Member>, i: nat, minOffset: nat)
    requires i < |ms| && AllFields(ms[..i + 1], minOffset)
    ensures AllFields(ms[..i], minOffset)
    ensures FieldEntries(ms[..i + 1], minOffset)
      == FieldEntries(ms[..i], minOffset) + [(ms[i].name, FieldOf(ms[i], i, minOffset).value)]
  {
    assert forall j | 0 <= j < i :: ms[..i][j] == ms[..i + 1][j];
  }

  /** The field table `DescField::from_desc_res` builds: empty for a
      non-struct type, one entry per member name for a struct (a later member
      with the same name replaces an earlier one), `None` where a member's
      type panics. */
  function FieldTable(t: R.ReflectedType, minOffset: nat): Option<map<string, DescField>> {
    if !t.Struct? then Some(map[])
    else if !AllFields(t.members, minOffset) then None
    else Some(Assoc(FieldEntries(t.members, minOffset)))
  }

  /** Every field offset of a table is a multiple of the alignment (so a
      non-empty table implies a non-zero alignment). */
  predicate Aligned(fields: map<string, DescField>, minOffset: nat) {
    forall n | n in fields :: minOffset > 0 && fields[n].offset % minOffset == 0
  }

  /** The shape of a field table: a non-struct yields an empty table, a
      struct fails exactly when one of its member types is unsupported, and
      otherwise the keys are exactly the member names. */
  lemma FieldTableShape(t: R.ReflectedType, minOffset: nat)
    ensures !t.Struct? ==> FieldTable(t, minOffset) == Some(map[])
    ensures t.Struct? ==> (FieldTable(t, minOffset).Some? <==>
      (forall j | 0 <= j < |t.members| :: !t.members[j].ty.Unsupported?) && (minOffset > 0 || t.members == []))
    ensures t.Struct? && FieldTable(t, minOffset).Some? ==>
      FieldTable(t, minOffset).value.Keys == (set j | 0 <= j < |t.members| :: t.members[j].name)
  {
    if t.Struct? && AllFields(t.members, minOffset) {
      var ms := t.members;
      var e := FieldEntries(ms, minOffset);
      forall j | 0 <= j < |ms|
        ensures ms[j].name in Assoc(e)
      {
        assert e[j].0 == ms[j].name;
      }
    }
  }

  /** The entry of the last member with a given name carries that member's
      position, its declared size (never rounded), its aligned offset and
      its own descriptor kind and count. */
  lemma FieldTableEntry(t: R.ReflectedType, minOffset: nat, i: nat)
    requires t.Struct? && FieldTable(t, minOffset).Some? && i < |t.members|
    requires forall j | i < j < |t.members| :: t.members[j].name != t.members[i].name
    ensures t.members[i].name in FieldTable(t, minOffset).value
    ensures
      var f := FieldTable(t, minOffset).value[t.members[i].name];
      && f.index == i
      && f.size == t.members[i].size
      && f.offset == AlignUp(t.members[i].offset, minOffset)
      && (f.ty, f.count) == CrossToAsh(t.members[i].ty).value
  {
    var e := FieldEntries(t.members, minOffset);
    assert forall j | i < j < |e| :: e[j].0 != e[i].0;
    AssocLastWins(e, i);
  }

  /** Every field of a table is aligned to the minimum offset and lies at
      most one alignment step after the declared offset of a member of that
      name; with an alignment of 1 no offset moves. */
  lemma FieldTableAligned(t: R.ReflectedType, minOffset: nat)
    requires FieldTable(t, minOffset).Some?
    ensures Aligned(FieldTable(t, minOffset).value, minOffset)
    ensures forall n | n in FieldTable(t, minOffset).value ::
      (exists j | 0 <= j < |t.members| ::
        (&& t.members[j].name == n
         && t.members[j].offset <= FieldTable(t, minOffset).value[n].offset < t.members[j].offset + minOffset
         && (minOffset == 1 ==> FieldTable(t, minOffset).value[n].offset == t.members[j].offset)))
  {
    var fields := FieldTable(t, minOffset).value;
    forall n | n in fields
      ensures fields[n].offset % minOffset == 0
      ensures exists j | 0 <= j < |t.members| ::
        (&& t.members[j].name == n
         && t.members[j].offset <= fields[n].offset < t.members[j].offset + minOffset
         && (minOffset == 1 ==> fields[n].offset == t.members[j].offset))
    {
      var e := FieldEntries(t.members, minOffset);
      AssocValueFrom(e, n);
      var j :| 0 <= j < |e| && e[j].0 == n && e[j].1 == fields[n];
      assert t.members[j].name == n;
    }
  }

  /** One more member that yields a field adds its entry to the table. */
  lemma FieldStep(ms: seq<R.Member>, i: nat, minOffset: nat)
    requires i < |ms| && AllFields(ms[..i], minOffset) && FieldOf(ms[i], i, minOffset).Some?
    ensures AllFields(ms[..i + 1], minOffset)
    ensures Assoc(FieldEntries(ms[..i + 1], minOffset))
      == Assoc(FieldEntries(ms[..i], minOffset))[ms[i].name := FieldOf(ms[i], i, minOffset).value]
  {
    assert forall j | 0 <= j < i :: ms[..i + 1][j] == ms[..i][j];
    FieldEntriesSnoc(ms, i, minOffset);
    AssocSnoc(FieldEntries(ms[..i], minOffset), (ms[i].name, FieldOf(ms[i], i, minOffset).value));
  }

  /** `DescField::from_desc_res`: fills the table member by member. */
  method FieldsFromResource(t: R.ReflectedType, minOffset: nat) returns (fields: Option<map<string, DescField>>)
    ensures fields == FieldTable(t, minOffset)
  {
    if !t.Struct? {
      return Some(map[]);
    }
    var ms := t.members;
    var table: map<string, DescField> := map[];
    var i := 0;
    while i < |ms|
      invariant 0 <= i <= |ms|
      invariant AllFields(ms[..i], minOffset)
      invariant table == Assoc(FieldEntries(ms[..i], minOffset))
    {
      var f := NewField(ms[i], i, minOffset);
      if f.None? {
        assert FieldOf(ms[i], i, minOffset).None?;
        return None;
      }
      FieldStep(ms, i, minOffset);
      table := table[ms[i].name := f.value];
      i := i + 1;
    }
    assert ms[..i] == ms;
    fields := Some(table);
  }

  /** One resource slot of a shader: where it is bound, what kind of
      descriptor it is, which stage reflected it and its field table. */
  datatype Descriptor = Descriptor(
    setIndex: nat, binding: nat, name: string,
    ty: DescriptorType, count: nat, stage: bv32,
    fields: map<string, DescField>)

  /** The descriptor `Descriptor::new` makes for a reflected resource, or
      `None` where reflection panics. */
  function DescriptorOf(res: R.Resource, stage: bv32, minOffset: nat): (d: Option<Descriptor>)
    ensures d.Some? <==> CrossToAsh(res.ty).Some? && FieldTable(res.ty, minOffset).Some?
    ensures d.Some? ==>
      && d.value.setIndex == res.setIndex && d.value.binding == res.binding && d.value.name == res.name
      && (d.value.ty, d.value.count) == CrossToAsh(res.ty).value
      && d.value.stage == stage
      && d.value.fields == FieldTable(res.ty, minOffset).value
  {
    var tc := CrossToAsh(res.ty);
    var fields := FieldTable(res.ty, minOffset);
    if tc.None? || fields.None? then None
    else Some(Descriptor(res.setIndex, res.binding, res.name, tc.value.0, tc.value.1, stage, fields.value))
  }

  /** `Descriptor::new`. */
  method NewDescriptor(res: R.Resource, stage: bv32, minOffset: nat) returns (d: Option<Descriptor>)
    ensures d == DescriptorOf(res, stage, minOffset)
  {
    var tc := CrossToAsh(res.ty);
    if tc.None? {
      return None;
    }
    var fields := FieldsFromResource(res.ty, minOffset);
    if fields.None? {
      return None;
    }
    d := Some(Descriptor(res.setIndex, res.binding, res.name, tc.value.0, tc.value.1, stage, fields.value));
  }

  /** `vk::DescriptorPoolSize`. */
  datatype PoolSize = PoolSize(ty: DescriptorType, descriptorCount: nat)

  /** `Descriptor::size`. */
  function Size(d: Descriptor): PoolSize {
    PoolSize(d.ty, d.count)
  }

  /** `vk::DescriptorSetLayoutBinding`; the immutable-sampler pointer is
      always null and is left out. */
  datatype LayoutBinding = LayoutBinding(binding: nat, descriptorType: DescriptorType, descriptorCount: nat, stageFlags: bv32)

  /** `Into<DescriptorSetLayoutBinding> for Descriptor`. */
  function IntoBinding(d: Descriptor): LayoutBinding {
    LayoutBinding(d.binding, d.ty, d.count, d.stage)
  }

  /** The handles a write can point at; Vulkan handles are opaque numbers. */
  datatype BufferInfo = BufferInfo(buffer: nat, offset: nat, range: nat)
  datatype ImageInfo = ImageInfo(sampler: nat, imageView: nat, imageLayout: nat)

  datatype DescWriteInfo = Buf(buf: BufferInfo) | Img(img: ImageInfo) | Tex(view: nat)

  /** `vk::WriteDescriptorSet`; a null pointer is `None`. */
  datatype WriteDescriptorSet = WriteDescriptorSet(
    dstSet: nat, dstBinding: nat, descriptorCount: nat, descriptorType: DescriptorType,
    bufferInfo: Option<BufferInfo>, imageInfo: Option<ImageInfo>, texelBufferView: Option<nat>)

  /** `Descriptor::make_write`: the write record for one descriptor of the
      set `dstSet`, pointing at exactly the resource `info` names. */
  function MakeWrite(d: Descriptor, dstSet: nat, info: DescWriteInfo): (w: WriteDescriptorSet)
    ensures w.dstSet == dstSet && w.dstBinding == d.binding
    ensures w.descriptorCount == d.count && w.descriptorType == d.ty
    ensures w.bufferInfo.Some? <==> info.Buf?
    ensures w.imageInfo.Some? <==> info.Img?
    ensures w.texelBufferView.Some? <==> info.Tex?
    ensures info.Buf? ==> w.bufferInfo.value == info.buf
    ensures info.Img? ==> w.imageInfo.value == info.img
    ensures info.Tex? ==> w.texelBufferView.value == info.view
  {
    var res := WriteDescriptorSet(dstSet, d.binding, d.count, d.ty, None, None, None);
    match info
    case Buf(b) => res.(bufferInfo := Some(b))
    case Img(i) => res.(imageInfo := Some(i))
    case Tex(t) => res.(texelBufferView := Some(t))
  }

  /** The layout binding, the pool size and every write made for one
      descriptor agree on its binding, kind and count, so a set allocated
      with that layout from that pool accepts the write. */
  lemma BindingAgrees(d: Descriptor, dstSet: nat, info: DescWriteInfo)
    ensures IntoBinding(d).binding == MakeWrite(d, dstSet, info).dstBinding
    ensures IntoBinding(d).descriptorType == Size(d).ty == MakeWrite(d, dstSet, info).descriptorType
    ensures IntoBinding(d).descriptorCount == Size(d).descriptorCount == MakeWrite(d, dstSet, info).descriptorCount
    ensures IntoBinding(d).stageFlags == d.stage
  {
  }

  /** `vk::PushConstantRange`. */
  datatype PushConstantRange = PushConstantRange(stageFlags: bv32, offset: nat, size: nat)

  datatype PushConstant = PushConstant(range: PushConstantRange, fields: map<string, DescField>)

  function FieldSize(f: DescField): nat {
    f.size
  }

  /** The sum of the declared sizes of the fields of a table, in no
      particular order. */
  ghost function SizeSum(fields: map<string, DescField>): nat {
    SumOver(fields, fields.Keys, FieldSize)
  }

  /** `PushConstant::new`: a block at offset 0, visible to the reflecting
      stage, whose size is the sum of its field sizes (the aligned offsets
      play no part); `None` where a member's type panics. */
  method NewPushConstant(res: R.Resource, stage: bv32, minOffset: nat) returns (p: Option<PushConstant>)
    ensures p.Some? <==> FieldTable(res.ty, minOffset).Some?
    ensures p.Some? ==> p.value.fields == FieldTable(res.ty, minOffset).value
    ensures p.Some? ==> p.value.range == PushConstantRange(stage, 0, SizeSum(p.value.fields))
  {
    var fields := FieldsFromResource(res.ty, minOffset);
    if fields.None? {
      return None;
    }
    var table := fields.value;
    var size := 0;
    var rest := table.Keys;
    while rest != {}
      invariant rest <= table.Keys
      invariant size + SumOver(table, rest, FieldSize) == SizeSum(table)
      decreases rest
    {
      var k :| k in rest;
      SumOverRemove(table, rest, FieldSize, k);
      size := size + table[k].size;
      rest := rest - {k};
    }
    p := Some(PushConstant(PushConstantRange(stage, 0, size), table));
  }

  /** The push-constant block `PushConstant::new` builds, as a value. */
  ghost function PushConstantOf(res: R.Resource, stage: bv32, minOffset: nat): Option<PushConstant>
  {
    var fields := FieldTable(res.ty, minOffset);
    if fields.None? then None
    else Some(PushConstant(PushConstantRange(stage, 0, SizeSum(fields.value)), fields.value))
  }

  /** With distinct member names the block size is the plain sum of the
      declared member sizes. */
  function MemberSizes(ms: seq<R.Member>): nat {
    if ms == [] then 0 else MemberSizes(ms[..|ms| - 1]) + ms[|ms| - 1].size
  }

  predicate DistinctNames(ms: seq<R.Member>) {
    forall i, j | 0 <= i < j < |ms| :: ms[i].name != ms[j].name
  }

  /** With distinct names, the last member's name is not yet in the table of
      the members before it. */
  lemma LastNameFresh(ms: seq<R.Member>, minOffset: nat)
    requires ms != [] && AllFields(ms[..|ms| - 1], minOffset) && DistinctNames(ms)
    ensures DistinctNames(ms[..|ms| - 1])
    ensures ms[|ms| - 1].name !in Assoc(FieldEntries(ms[..|ms| - 1], minOffset))
  {
    var n := |ms| - 1;
    var e := FieldEntries(ms[..n], minOffset);
    assert forall j | 0 <= j < n :: ms[..n][j] == ms[j];
    assert forall j | 0 <= j < n :: e[j].0 == ms[j].name;
  }

  lemma {:induction false} SizeSumOfDistinctMembers(ms: seq<R.Member>, minOffset: nat)
    requires AllFields(ms, minOffset) && DistinctNames(ms)
    ensures SizeSum(Assoc(FieldEntries(ms, minOffset))) == MemberSizes(ms)
  {
    if ms != [] {
      var n := |ms| - 1;
      var front := ms[..n];
      assert ms[..n + 1] == ms;
      FieldEntriesSnoc(ms, n, minOffset);
      var e := FieldEntries(front, minOffset);
      var kv := (ms[n].name, FieldOf(ms[n], n, minOffset).value);
      AssocSnoc(e, kv);
      LastNameFresh(ms, minOffset);
      SumOverInsert(Assoc(e), kv.0, kv.1, FieldSize);
      SizeSumOfDistinctMembers(front, minOffset);
    }
  }

  datatype PushError = UnknownField | SizeMismatch

  /** What `cmd_push_constants` is called with. */
  datatype PushCommand = PushCommand(stageFlags: bv32, offset: nat, data: seq<bv8>)

  const U32_MODULUS: nat := 0x1_0000_0000

  /** `PushConstant::write`: looks the field up (an unknown name panics),
      rejects a payload whose byte length differs from the field size, and
      otherwise pushes the payload at the block offset plus the field
      offset, truncated to 32 bits, with the block's stage flags. */
  function PushWrite(p: PushConstant, field: string, data: seq<bv8>): (r: Result<PushCommand, PushError>)
    ensures field !in p.fields ==> r == Err(UnknownField)
    ensures field in p.fields && |data| != p.fields[field].size ==> r == Err(SizeMismatch)
    ensures r.Ok? <==> field in p.fields && |data| == p.fields[field].size
    ensures r.Ok? ==> r.value.stageFlags == p.range.stageFlags && r.value.data == data
    ensures r.Ok? ==> r.value.offset == p.range.offset + p.fields[field].offset % U32_MODULUS
  {
    if field !in p.fields then Err(UnknownField)
    else
      var desc := p.fields[field];
      if |data| != desc.size then Err(SizeMismatch)
      else Ok(PushCommand(p.range.stageFlags, p.range.offset + desc.offset % U32_MODULUS, data))
  }
}
