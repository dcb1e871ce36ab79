/** The descriptor-pool builder and what it produces: one pool, one set per
    descriptor-set index, and the write records and uniform buffers of
    those sets (src/shader/descriptor.rs, `DescPoolBuilder`,
    `DescPoolToken`, `SetToken`). */
module DescriptorPool {
  import opened Collections
  import opened Stages
  import R = Reflection
  import opened Descriptors

  /** The stage flags of a binary: those of the execution model of its first
      entry point; `None` where the source panics (no entry point, or an
      execution model that is not a supported stage). */
  function StageOf(bin: R.ShaderReflection): (f: Option<bv32>)
    ensures f.Some? <==>
      |bin.entryPoints| > 0 && bin.entryPoints[0] in {VertexModel, GeometryModel, FragmentModel}
    ensures f == Some(VERTEX_BIT) <==> |bin.entryPoints| > 0 && bin.entryPoints[0] == VertexModel
    ensures f == Some(GEOMETRY_BIT) <==> |bin.entryPoints| > 0 && bin.entryPoints[0] == GeometryModel
    ensures f == Some(FRAGMENT_BIT) <==> |bin.entryPoints| > 0 && bin.entryPoints[0] == FragmentModel
  {
    if |bin.entryPoints| == 0 then None
    else
      var native := StageFromModel(bin.entryPoints[0]);
      if native.None? then None else Some(StageFlags(native.value))
  }

  /** Every resource yields a descriptor. */
  predicate AllDescribed(rs: seq<R.Resource>, stage: bv32, minOffset: nat) {
    forall i | 0 <= i < |rs| :: DescriptorOf(rs[i], stage, minOffset).Some?
  }

  /** The descriptors of the resources, in visiting order. */
  function DescriptorsOf(rs: seq<R.Resource>, stage: bv32, minOffset: nat): seq<Descriptor>
    requires AllDescribed(rs, stage, minOffset)
  {
    seq(|rs|, i requires 0 <= i < |rs| => DescriptorOf(rs[i], stage, minOffset).value)
  }

  lemma DescriptorsSnoc(rs: seq<R.Resource>, i: nat, stage: bv32, minOffset: nat)
    requires i < |rs| && AllDescribed(rs[..i + 1], stage, minOffset)
    ensures AllDescribed(rs[..i], stage, minOffset)
    ensures DescriptorsOf(rs[..i + 1], stage, minOffset)
      == DescriptorsOf(rs[..i], stage, minOffset) + [DescriptorOf(rs[i], stage, minOffset).value]
  {
    assert forall j | 0 <= j < i :: rs[..i][j] == rs[..i + 1][j];
  }

  /** Every push-constant block yields a field table. */
  predicate AllPushes(ps: seq<R.Resource>, minOffset: nat) {
    forall i | 0 <= i < |ps| :: FieldTable(ps[i].ty, minOffset).Some?
  }

  /** The (name, block) pairs inserted into the push-constant table. */
  ghost function PushEntries(ps: seq<R.Resource>, stage: bv32, minOffset: nat): seq<(string, PushConstant)>
    requires AllPushes(ps, minOffset)
  {
    seq(|ps|, i requires 0 <= i < |ps| => (ps[i].name, PushConstantOf(ps[i], stage, minOffset).value))
  }

  lemma PushEntriesSnoc(ps: seq<R.Resource>, i: nat, stage: bv32, minOffset: nat)
    requires i < |ps| && AllPushes(ps[..i + 1], minOffset)
    ensures AllPushes(ps[..i], minOffset)
    ensures PushEntries(ps[..i + 1], stage, minOffset)
      == PushEntries(ps[..i], stage, minOffset) + [(ps[i].name, PushConstantOf(ps[i], stage, minOffset).value)]
  {
    assert forall j | 0 <= j < i :: ps[..i][j] == ps[..i + 1][j];
  }

  /** A binary is accepted by `add` exactly when its stage is known and every
      resource and every push-constant block reflects without a panic. */
  ghost predicate Reflects(bin: R.ShaderReflection, minOffset: nat) {
    && StageOf(bin).Some?
    && AllDescribed(R.DescriptorResources(bin), StageOf(bin).value, minOffset)
    && AllPushes(bin.pushConstantBuffers, minOffset)
  }

  /** The descriptors held for one set index (none when the index is absent). */
  function ListOf(data: map<nat, seq<Descriptor>>, s: nat): seq<Descriptor> {
    if s in data then data[s] else []
  }

  /** The descriptors of `ds` that belong to set `s`, in order. */
  function InSet(ds: seq<Descriptor>, s: nat): (r: seq<Descriptor>)
    ensures |r| <= |ds|
    ensures forall d :: d in r <==> d in ds && d.setIndex == s
  {
    if ds == [] then []
    else
      var n := |ds| - 1;
      assert ds == ds[..n] + [ds[n]];
      InSet(ds[..n], s) + (if ds[n].setIndex == s then [ds[n]] else [])
  }

  /** The per-set table after appending each descriptor, in order, to the
      list of its own set, creating the list on first use. */
  function AppendDescs(data: map<nat, seq<Descriptor>>, ds: seq<Descriptor>): map<nat, seq<Descriptor>> {
    if ds == [] then data
    else
      var prev := AppendDescs(data, ds[..|ds| - 1]);
      var d := ds[|ds| - 1];
      prev[d.setIndex := ListOf(prev, d.setIndex) + [d]]
  }

  /** What appending does to each set: a set is present afterwards exactly
      when it was before or some new descriptor belongs to it, and its list
      is the old list followed by the new descriptors of that set in order
      (duplicates kept, other sets untouched). */
  lemma {:induction false} AppendDescsPerSet(data: map<nat, seq<Descriptor>>, ds: seq<Descriptor>, s: nat)
    ensures s in AppendDescs(data, ds) <==> s in data || InSet(ds, s) != []
    ensures ListOf(AppendDescs(data, ds), s) == ListOf(data, s) + InSet(ds, s)
  {
    if ds != [] {
      var front, d := ds[..|ds| - 1], ds[|ds| - 1];
      assert ds == front + [d];
      var prev := AppendDescs(data, front);
      assert AppendDescs(data, ds) == prev[d.setIndex := ListOf(prev, d.setIndex) + [d]];
      AppendDescsPerSet(data, front, s);
      var before, added := ListOf(data, s), InSet(front, s);
      if d.setIndex == s {
        assert InSet(ds, s) == added + [d];
        assert ListOf(AppendDescs(data, ds), s) == (before + added) + [d];
        assert (before + added) + [d] == before + (added + [d]);
      } else {
        assert InSet(ds, s) == added + [];
        assert ListOf(AppendDescs(data, ds), s) == ListOf(prev, s);
      }
    }
  }

  /** `Descriptor::size` of every descriptor of a list, in order. */
  function SizesOf(ds: seq<Descriptor>): seq<PoolSize> {
    seq(|ds|, i requires 0 <= i < |ds| => Size(ds[i]))
  }

  ghost function SizesBag(ds: seq<Descriptor>): multiset<PoolSize> {
    multiset(SizesOf(ds))
  }

  /** The pool sizes of all sets, in no particular order. */
  ghost function PoolSizes(data: map<nat, seq<Descriptor>>): multiset<PoolSize> {
    UnionOver(data, data.Keys, SizesBag)
  }

  /** Replacing one set's list replaces that list's pool sizes. */
  lemma PoolSizesUpdate(data: map<nat, seq<Descriptor>>, k: nat, v: seq<Descriptor>)
    ensures PoolSizes(data[k := v]) + SizesBag(ListOf(data, k)) == PoolSizes(data) + SizesBag(v)
  {
    var m := data[k := v];
    UnionOverRemove(m, m.Keys, SizesBag, k);
    assert m.Keys - {k} == data.Keys - {k};
    UnionOverAgree(m, data, data.Keys - {k}, SizesBag);
    if k in data {
      UnionOverRemove(data, data.Keys, SizesBag, k);
    } else {
      assert data.Keys - {k} == data.Keys;
      assert SizesOf([]) == [];
    }
  }

  lemma SizesOfSnoc(ds: seq<Descriptor>, d: Descriptor)
    ensures SizesOf(ds + [d]) == SizesOf(ds) + [Size(d)]
  {
  }

  lemma SizesOfConcat(a: seq<Descriptor>, b: seq<Descriptor>)
    ensures multiset(SizesOf(a + b)) == multiset(SizesOf(a)) + multiset(SizesOf(b))
  {
    assert SizesOf(a + b) == SizesOf(a) + SizesOf(b);
  }

  lemma MultisetCancel<T>(a: multiset<T>, b: multiset<T>, c: multiset<T>)
    requires a + b == c + b
    ensures a == c
  {
    assert forall x :: a[x] == (a + b)[x] - b[x];
    assert forall x :: c[x] == (c + b)[x] - b[x];
  }

  /** Appending one descriptor to its set's list adds its own pool size. */
  lemma PoolSizesPush(prev: map<nat, seq<Descriptor>>, d: Descriptor)
    ensures PoolSizes(prev[d.setIndex := ListOf(prev, d.setIndex) + [d]]) == PoolSizes(prev) + multiset{Size(d)}
  {
    var k := d.setIndex;
    var v := ListOf(prev, k) + [d];
    var sd := multiset{Size(d)};
    var b := SizesBag(ListOf(prev, k));
    PoolSizesUpdate(prev, k, v);
    SizesOfSnoc(ListOf(prev, k), d);
    assert SizesBag(v) == b + sd;
    assert PoolSizes(prev[k := v]) + b == (PoolSizes(prev) + sd) + b;
    MultisetCancel(PoolSizes(prev[k := v]), b, PoolSizes(prev) + sd);
  }

  /** Every appended descriptor adds exactly its own pool size: the pool a
      builder makes counts each descriptor it was given once. */
  lemma {:induction false} PoolSizesAppend(data: map<nat, seq<Descriptor>>, ds: seq<Descriptor>)
    ensures PoolSizes(AppendDescs(data, ds)) == PoolSizes(data) + multiset(SizesOf(ds))
  {
    if ds == [] {
      assert SizesOf(ds) == [];
    } else {
      var front, d := ds[..|ds| - 1], ds[|ds| - 1];
      assert ds == front + [d];
      var prev := AppendDescs(data, front);
      assert AppendDescs(data, ds) == prev[d.setIndex := ListOf(prev, d.setIndex) + [d]];
      PoolSizesPush(prev, d);
      PoolSizesAppend(data, front);
      SizesOfConcat(front, [d]);
      assert SizesOf([d]) == [Size(d)];
    }
  }

  /** A set as allocated: its handle (the position at which the driver
      returned it), its layout bindings and its descriptors by name. */
  datatype SetToken = SetToken(handle: nat, layout: seq<LayoutBinding>, descriptors: map<string, Descriptor>)

  /** `vk::DescriptorPoolCreateInfo`. */
  datatype PoolInfo = PoolInfo(sizes: seq<PoolSize>, maxSets: nat)

  datatype DescPoolToken = DescPoolToken(pool: PoolInfo, sets: seq<SetToken>)

  function Layout(ds: seq<Descriptor>): seq<LayoutBinding> {
    seq(|ds|, i requires 0 <= i < |ds| => IntoBinding(ds[i]))
  }

  /** `HashMap::from_iter` over (name, descriptor) pairs. */
  function ByName(ds: seq<Descriptor>): map<string, Descriptor> {
    Assoc(seq(|ds|, i requires 0 <= i < |ds| => (ds[i].name, ds[i])))
  }

  /** A set's name table holds every descriptor name of the set, and a name
      maps to the last descriptor of the set with that name. */
  lemma ByNameLastWins(ds: seq<Descriptor>, i: nat)
    requires i < |ds|
    requires forall j | i < j < |ds| :: ds[j].name != ds[i].name
    ensures ByName(ds).Keys == set j | 0 <= j < |ds| :: ds[j].name
    ensures ByName(ds)[ds[i].name] == ds[i]
  {
    var e := seq(|ds|, k requires 0 <= k < |ds| => (ds[k].name, ds[k]));
    assert forall k | 0 <= k < |ds| :: e[k].0 == ds[k].name;
    AssocLastWins(e, i);
  }

  function SetTokenOf(handle: nat, ds: seq<Descriptor>): SetToken {
    SetToken(handle, Layout(ds), ByName(ds))
  }

  /** Every descriptor in a name table is one of the list's descriptors,
      filed under its own name; a non-empty list gives a non-empty table. */
  lemma ByNameFrom(ds: seq<Descriptor>)
    ensures forall n | n in ByName(ds) :: ByName(ds)[n] in ds && ByName(ds)[n].name == n
    ensures ds != [] ==> ByName(ds) != map[]
  {
    var e := seq(|ds|, k requires 0 <= k < |ds| => (ds[k].name, ds[k]));
    forall n | n in ByName(ds)
      ensures ByName(ds)[n] in ds && ByName(ds)[n].name == n
    {
      AssocValueFrom(e, n);
    }
    if ds != [] {
      assert e[0].0 in ByName(ds);
    }
  }

  /** A set token for set index `s`: it names at least one descriptor, and
      every descriptor it names belongs to set `s` and has aligned fields. */
  ghost predicate TokenValid(st: SetToken, s: nat, minOffset: nat) {
    && st.descriptors != map[]
    && forall n | n in st.descriptors ::
         st.descriptors[n].setIndex == s && Aligned(st.descriptors[n].fields, minOffset)
  }

  /** The tokens made from a valid set table are valid. */
  lemma SetTokenValid(data: map<nat, seq<Descriptor>>, s: nat, handle: nat, minOffset: nat)
    requires SetsValid(data, minOffset) && s in data
    ensures TokenValid(SetTokenOf(handle, data[s]), s, minOffset)
  {
    ByNameFrom(data[s]);
  }

  /** Every list is non-empty and holds only descriptors of its own set,
      each with aligned field offsets. */
  ghost predicate SetsValid(data: map<nat, seq<Descriptor>>, minOffset: nat) {
    && (forall s | s in data :: data[s] != [])
    && (forall s | s in data :: forall d | d in data[s] :: d.setIndex == s && Aligned(d.fields, minOffset))
  }

  ghost predicate PushesValid(pushConsts: map<string, PushConstant>, minOffset: nat) {
    forall n | n in pushConsts :: Aligned(pushConsts[n].fields, minOffset)
  }

  lemma PushesValidStep(pushConsts: map<string, PushConstant>, name: string, p: PushConstant, minOffset: nat)
    requires PushesValid(pushConsts, minOffset) && Aligned(p.fields, minOffset)
    ensures PushesValid(pushConsts[name := p], minOffset)
  {
  }

  lemma SetsValidStep(data: map<nat, seq<Descriptor>>, d: Descriptor, minOffset: nat)
    requires SetsValid(data, minOffset) && Aligned(d.fields, minOffset)
    ensures SetsValid(data[d.setIndex := ListOf(data, d.setIndex) + [d]], minOffset)
  {
  }

  /** One more resource: its descriptor is appended to the table. */
  lemma DescribedStep(start: map<nat, seq<Descriptor>>, rs: seq<R.Resource>, i: nat, stage: bv32, minOffset: nat)
    requires i < |rs| && AllDescribed(rs[..i], stage, minOffset) && DescriptorOf(rs[i], stage, minOffset).Some?
    ensures AllDescribed(rs[..i + 1], stage, minOffset)
    ensures
      var prev := AppendDescs(start, DescriptorsOf(rs[..i], stage, minOffset));
      var d := DescriptorOf(rs[i], stage, minOffset).value;
      AppendDescs(start, DescriptorsOf(rs[..i + 1], stage, minOffset)) == prev[d.setIndex := ListOf(prev, d.setIndex) + [d]]
  {
    assert forall j | 0 <= j < i + 1 :: rs[..i + 1][j] == if j < i then rs[..i][j] else rs[i];
    DescriptorsSnoc(rs, i, stage, minOffset);
    var ds := DescriptorsOf(rs[..i], stage, minOffset);
    var d := DescriptorOf(rs[i], stage, minOffset).value;
    assert (ds + [d])[..|ds|] == ds;
  }

  /** One more push-constant block: it is inserted under its name. */
  lemma PushStep(start: map<string, PushConstant>, ps: seq<R.Resource>, j: nat, stage: bv32, minOffset: nat)
    requires j < |ps| && AllPushes(ps[..j], minOffset) && FieldTable(ps[j].ty, minOffset).Some?
    ensures AllPushes(ps[..j + 1], minOffset)
    ensures start + Assoc(PushEntries(ps[..j + 1], stage, minOffset))
      == (start + Assoc(PushEntries(ps[..j], stage, minOffset)))[ps[j].name := PushConstantOf(ps[j], stage, minOffset).value]
  {
    assert forall k | 0 <= k < j + 1 :: ps[..j + 1][k] == if k < j then ps[..j][k] else ps[j];
    PushEntriesSnoc(ps, j, stage, minOffset);
    var e := PushEntries(ps[..j], stage, minOffset);
    var kv := (ps[j].name, PushConstantOf(ps[j], stage, minOffset).value);
    AssocSnoc(e, kv);
    MergeUpdate(start, Assoc(e), kv.0, kv.1);
  }

  /** The first loop of `DescPoolBuilder::add`: each resource's descriptor
      is appended to the list of its set; `ok` is false where a resource
      panics. */
  method AppendResources(sets0: map<nat, seq<Descriptor>>, rs: seq<R.Resource>, stage: bv32, minOffset: nat)
    returns (ok: bool, sets: map<nat, seq<Descriptor>>)
    requires SetsValid(sets0, minOffset)
    ensures ok <==> AllDescribed(rs, stage, minOffset)
    ensures ok ==> SetsValid(sets, minOffset)
    ensures ok ==> sets == AppendDescs(sets0, DescriptorsOf(rs, stage, minOffset))
  {
    sets := sets0;
    var i := 0;
    while i < |rs|
      invariant 0 <= i <= |rs|
      invariant SetsValid(sets, minOffset)
      invariant AllDescribed(rs[..i], stage, minOffset)
      invariant sets == AppendDescs(sets0, DescriptorsOf(rs[..i], stage, minOffset))
    {
      var desc := NewDescriptor(rs[i], stage, minOffset);
      if desc.None? {
        assert !AllDescribed(rs, stage, minOffset);
        return false, sets;
      }
      var d := desc.value;
      FieldTableAligned(rs[i].ty, minOffset);
      SetsValidStep(sets, d, minOffset);
      DescribedStep(sets0, rs, i, stage, minOffset);
      sets := sets[d.setIndex := ListOf(sets, d.setIndex) + [d]];
      i := i + 1;
    }
    assert rs[..i] == rs;
    ok := true;
  }

  /** The second loop of `DescPoolBuilder::add`: each push-constant block is
      inserted under its name, replacing an earlier block of that name;
      `ok` is false where a block panics. */
  method InsertPushConstants(pushes0: map<string, PushConstant>, ps: seq<R.Resource>, stage: bv32, minOffset: nat)
    returns (ok: bool, pushes: map<string, PushConstant>)
    requires PushesValid(pushes0, minOffset)
    ensures ok <==> AllPushes(ps, minOffset)
    ensures ok ==> PushesValid(pushes, minOffset)
    ensures ok ==> pushes == pushes0 + Assoc(PushEntries(ps, stage, minOffset))
  {
    pushes := pushes0;
    var j := 0;
    while j < |ps|
      invariant 0 <= j <= |ps|
      invariant PushesValid(pushes, minOffset)
      invariant AllPushes(ps[..j], minOffset)
      invariant pushes == pushes0 + Assoc(PushEntries(ps[..j], stage, minOffset))
    {
      var p := NewPushConstant(ps[j], stage, minOffset);
      if p.None? {
        assert !AllPushes(ps, minOffset);
        return false, pushes;
      }
      FieldTableAligned(ps[j].ty, minOffset);
      PushesValidStep(pushes, ps[j].name, p.value, minOffset);
      PushStep(pushes0, ps, j, stage, minOffset);
      pushes := pushes[ps[j].name := p.value];
      j := j + 1;
    }
    assert ps[..j] == ps;
    ok := true;
  }

  class DescPoolBuilder {
    const minOffset: nat
    var data: map<nat, seq<Descriptor>>
    var pushConsts: map<string, PushConstant>

    /** Every list is non-empty and holds only descriptors of its own set,
        and every field offset is aligned. */
    ghost predicate Valid()
      reads this
    {
      SetsValid(data, minOffset) && PushesValid(pushConsts, minOffset)
    }

    /** `DescPoolToken::builder`. */
    constructor (minOffset: nat)
      ensures Valid()
      ensures this.minOffset == minOffset && data == map[] && pushConsts == map[]
    {
      this.minOffset := minOffset;
      data := map[];
      pushConsts := map[];
    }

    /** `DescPoolBuilder::add`: appends the descriptors of one binary to the
        lists of their sets and inserts its push-constant blocks by name.
        `ok` is false where the source panics; the state is then partial. */
    method Add(bin: R.ShaderReflection) returns (ok: bool)
      requires Valid()
      modifies this
      ensures Valid()
      ensures ok <==> Reflects(bin, minOffset)
      ensures ok ==> data == AppendDescs(old(data), DescriptorsOf(R.DescriptorResources(bin), StageOf(bin).value, minOffset))
      ensures ok ==> pushConsts == old(pushConsts) + Assoc(PushEntries(bin.pushConstantBuffers, StageOf(bin).value, minOffset))
    {
      if |bin.entryPoints| == 0 {
        return false;
      }
      var native := StageFromModel(bin.entryPoints[0]);
      if native.None? {
        return false;
      }
      var stage := StageFlags(native.value);
      var described, sets := AppendResources(data, R.DescriptorResources(bin), stage, minOffset);
      if !described {
        return false;
      }
      var pushed, pushes := InsertPushConstants(pushConsts, bin.pushConstantBuffers, stage, minOffset);
      if !pushed {
        return false;
      }
      data := sets;
      pushConsts := pushes;
      ok := true;
    }

    /** `DescPoolBuilder::build`: one pool whose sizes are those of every
        descriptor held and which allows one set per set index, and one set
        token per set index, made in the map's iteration order `order` (both
        passes over the map see the same order); the push-constant table is
        handed back unchanged. */
    method Build() returns (token: DescPoolToken, pushes: map<string, PushConstant>, ghost order: seq<nat>)
      requires Valid()
      ensures NoDuplicates(order) && forall s :: s in order <==> s in data
      ensures multiset(token.pool.sizes) == PoolSizes(data)
      ensures token.pool.maxSets == |data|
      ensures |token.sets| == |order| == |data|
      ensures forall j | 0 <= j < |order| :: token.sets[j] == SetTokenOf(j, data[order[j]])
      ensures pushes == pushConsts
      ensures forall j | 0 <= j < |order| :: TokenValid(token.sets[j], order[j], minOffset)
      ensures PushesValid(pushes, minOffset)
    {
      var table := data;
      var sizes, visit := CollectSizes(table);
      var sets := MakeSets(table, visit);
      token := DescPoolToken(PoolInfo(sizes, |table|), sets);
      order := visit;
      pushes := pushConsts;
      forall j | 0 <= j < |order|
        ensures TokenValid(token.sets[j], order[j], minOffset)
      {
        SetTokenValid(table, order[j], j, minOffset);
      }
    }
  }

  /** The first pass of `build`: visits every set once, in the map's
      iteration order, gathering the pool sizes of its descriptors. */
  method CollectSizes(table: map<nat, seq<Descriptor>>) returns (sizes: seq<PoolSize>, visit: seq<nat>)
    ensures NoDuplicates(visit) && forall s :: s in visit <==> s in table
    ensures |visit| == |table|
    ensures multiset(sizes) == PoolSizes(table)
  {
    sizes, visit := [], [];
    var rest := table.Keys;
    while rest != {}
      invariant rest <= table.Keys
      invariant NoDuplicates(visit)
      invariant forall s :: s in visit <==> s in table && s !in rest
      invariant |visit| + |rest| == |table.Keys|
      invariant multiset(sizes) + UnionOver(table, rest, SizesBag) == PoolSizes(table)
      decreases rest
    {
      var k :| k in rest;
      UnionOverRemove(table, rest, SizesBag, k);
      NoDuplicatesSnoc(visit, k);
      sizes := sizes + SizesOf(table[k]);
      visit := visit + [k];
      rest := rest - {k};
    }
  }

  /** The second pass of `build`: one set token per visited set, its handle
      being its position in the allocation. */
  method MakeSets(table: map<nat, seq<Descriptor>>, visit: seq<nat>) returns (sets: seq<SetToken>)
    requires forall s | s in visit :: s in table
    ensures |sets| == |visit|
    ensures forall j | 0 <= j < |visit| :: sets[j] == SetTokenOf(j, table[visit[j]])
  {
    sets := [];
    var j := 0;
    while j < |visit|
      invariant 0 <= j <= |visit|
      invariant |sets| == j
      invariant forall m | 0 <= m < j :: sets[m] == SetTokenOf(m, table[visit[m]])
    {
      sets := sets + [SetTokenOf(j, table[visit[j]])];
      j := j + 1;
    }
  }

  lemma AppendOne(data: map<nat, seq<Descriptor>>, d: Descriptor)
    ensures AppendDescs(data, [d]) == data[d.setIndex := ListOf(data, d.setIndex) + [d]]
  {
    assert [d][..0] == [];
  }

  /** Two binaries at different set indices: a sampler at set 1 and a
      uniform block at set 0 give a pool for two sets holding one size of
      each kind. */
  lemma TwoSetsPool(sampler: Descriptor, ubo: Descriptor)
    requires sampler.setIndex == 1 && sampler.ty == Sampler && sampler.count == 1
    requires ubo.setIndex == 0 && ubo.ty == UniformBuffer && ubo.count == 1
    ensures
      var data := AppendDescs(AppendDescs(map[], [sampler]), [ubo]);
      && |data| == 2
      && PoolSizes(data) == multiset{PoolSize(Sampler, 1), PoolSize(UniformBuffer, 1)}
  {
    var d1 := AppendDescs(map[], [sampler]);
    var d2 := AppendDescs(d1, [ubo]);
    AppendOne(map[], sampler);
    AppendOne(d1, ubo);
    assert d1.Keys == {1};
    assert d2.Keys == {0, 1};
    assert PoolSizes(map[]) == multiset{};
    PoolSizesAppend(map[], [sampler]);
    PoolSizesAppend(d1, [ubo]);
    assert SizesOf([sampler]) == [PoolSize(Sampler, 1)];
    assert SizesOf([ubo]) == [PoolSize(UniformBuffer, 1)];
  }

  /** `SetToken::make_writes`: one write per requested name the set knows,
      in request order; unknown names are skipped. */
  function MakeWrites(st: SetToken, info: seq<(string, DescWriteInfo)>): (ws: seq<WriteDescriptorSet>)
    ensures |ws| <= |info|
    ensures forall k | 0 <= k < |ws| :: ws[k].dstSet == st.handle
    ensures (forall i | 0 <= i < |info| :: info[i].0 !in st.descriptors) ==> ws == []
  {
    if info == [] then []
    else
      var n := |info| - 1;
      assert forall i | 0 <= i < n :: info[..n][i] == info[i];
      MakeWrites(st, info[..n]) + WriteFor(st, info[n])
  }

  /** The write for one request: none when the set does not know the name. */
  function WriteFor(st: SetToken, request: (string, DescWriteInfo)): seq<WriteDescriptorSet> {
    if request.0 in st.descriptors then [MakeWrite(st.descriptors[request.0], st.handle, request.1)] else []
  }

  /** Writes for a concatenation of requests are the writes of each part, in
      order; a single request yields its write exactly when the name is
      known. */
  lemma {:induction false} MakeWritesAppend(st: SetToken, a: seq<(string, DescWriteInfo)>, b: seq<(string, DescWriteInfo)>)
    ensures MakeWrites(st, a + b) == MakeWrites(st, a) + MakeWrites(st, b)
  {
    if b == [] {
      assert a + b == a;
    } else {
      var front, last := b[..|b| - 1], b[|b| - 1];
      assert a + b == (a + front) + [last];
      assert b == front + [last];
      var wa, wf, wl := MakeWrites(st, a), MakeWrites(st, front), WriteFor(st, last);
      calc {
        MakeWrites(st, a + b);
        { MakeWritesSnoc(st, a + front, last); }
        MakeWrites(st, a + front) + wl;
        { MakeWritesAppend(st, a, front); }
        (wa + wf) + wl;
        wa + (wf + wl);
        { MakeWritesSnoc(st, front, last); }
        wa + MakeWrites(st, b);
      }
    }
  }

  lemma MakeWritesSnoc(st: SetToken, info: seq<(string, DescWriteInfo)>, request: (string, DescWriteInfo))
    ensures MakeWrites(st, info + [request]) == MakeWrites(st, info) + WriteFor(st, request)
  {
    assert (info + [request])[..|info|] == info;
  }

  lemma MakeWritesSingle(st: SetToken, name: string, wi: DescWriteInfo)
    ensures MakeWrites(st, [(name, wi)])
      == (if name in st.descriptors then [MakeWrite(st.descriptors[name], st.handle, wi)] else [])
  {
    assert [(name, wi)][..0] == [];
  }

  /** `DescPoolToken::update_desc_sets`: the writes of every set, set by set. */
  function UpdateWrites(sets: seq<SetToken>, info: seq<(string, DescWriteInfo)>): (ws: seq<WriteDescriptorSet>)
    ensures (forall j, i | 0 <= j < |sets| && 0 <= i < |info| :: info[i].0 !in sets[j].descriptors) ==> ws == []
    ensures forall k | 0 <= k < |ws| :: exists j | 0 <= j < |sets| :: ws[k].dstSet == sets[j].handle
  {
    if sets == [] then []
    else
      var n := |sets| - 1;
      assert forall j | 0 <= j < n :: sets[..n][j] == sets[j];
      UpdateWrites(sets[..n], info) + MakeWrites(sets[n], info)
  }

  /** The writes for a concatenation of sets are the writes for each part,
      in set order; one set contributes exactly its own `make_writes`. */
  lemma {:induction false} UpdateWritesAppend(a: seq<SetToken>, b: seq<SetToken>, info: seq<(string, DescWriteInfo)>)
    ensures UpdateWrites(a + b, info) == UpdateWrites(a, info) + UpdateWrites(b, info)
    decreases |b|
  {
    if b == [] {
      assert a + b == a;
    } else {
      var front, last := b[..|b| - 1], b[|b| - 1];
      assert (a + b)[..|a + b| - 1] == a + front;
      assert b[..|b| - 1] == front;
      var wa, wf, wl := UpdateWrites(a, info), UpdateWrites(front, info), MakeWrites(last, info);
      calc {
        UpdateWrites(a + b, info);
        UpdateWrites(a + front, info) + wl;
        { UpdateWritesAppend(a, front, info); }
        (wa + wf) + wl;
        wa + (wf + wl);
        wa + UpdateWrites(b, info);
      }
    }
  }

  lemma UpdateWritesSingle(st: SetToken, info: seq<(string, DescWriteInfo)>)
    ensures UpdateWrites([st], info) == MakeWrites(st, info)
  {
    assert [st][..0] == [];
  }

  /** The field tables of a set's descriptors that have fields. */
  function StructFields(ds: map<string, Descriptor>): map<string, map<string, DescField>> {
    map n | n in ds && ds[n].fields != map[] :: ds[n].fields
  }

  /** The field tables `DescPoolToken::make_buffers` builds its uniform
      buffers from, by descriptor name: one per named descriptor with fields
      in some set; where two sets use the same name the later set wins. */
  function MakeBuffers(sets: seq<SetToken>): (bufs: map<string, map<string, DescField>>)
    ensures forall n | n in bufs :: bufs[n] != map[]
  {
    if sets == [] then map[]
    else MakeBuffers(sets[..|sets| - 1]) + StructFields(sets[|sets| - 1].descriptors)
  }

  /** A name gets a buffer exactly when some set has a descriptor of that
      name with fields. */
  lemma {:induction false} MakeBuffersKeys(sets: seq<SetToken>, name: string)
    ensures name in MakeBuffers(sets) <==>
      exists j | 0 <= j < |sets| :: name in sets[j].descriptors && sets[j].descriptors[name].fields != map[]
  {
    if sets != [] {
      var n := |sets| - 1;
      MakeBuffersKeys(sets[..n], name);
      assert forall j | 0 <= j < n :: sets[..n][j] == sets[j];
    }
  }

  /** The buffer for a name is built from the fields of that name in the last
      set that has it with fields. */
  lemma {:induction false} MakeBuffersLastWins(sets: seq<SetToken>, j: nat, name: string)
    requires j < |sets| && name in sets[j].descriptors && sets[j].descriptors[name].fields != map[]
    requires forall k | j < k < |sets| :: name !in sets[k].descriptors || sets[k].descriptors[name].fields == map[]
    ensures name in MakeBuffers(sets)
    ensures MakeBuffers(sets)[name] == sets[j].descriptors[name].fields
  {
    var n := |sets| - 1;
    assert MakeBuffers(sets) == MakeBuffers(sets[..n]) + StructFields(sets[n].descriptors);
    if j < n {
      assert forall k | 0 <= k < n :: sets[..n][k] == sets[k];
      MakeBuffersLastWins(sets[..n], j, name);
      assert name !in StructFields(sets[n].descriptors);
    } else {
      assert name in StructFields(sets[n].descriptors);
    }
  }
}
