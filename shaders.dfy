/** Shader binaries with their stage, and the chain that turns a list of
    them into shader artifacts, a descriptor pool and push-constant blocks
    (src/shader.rs, `MetaShader`, `ShaderArtifact`). */
module Shaders {
  import opened Collections
  import opened Stages
  import R = Reflection
  import opened Descriptors
  import opened DescriptorPool

  /** `str::rfind` for one character: the index of its last occurrence. */
  function LastIndexOf(s: string, c: char): (r: Option<nat>)
    ensures r.Some? ==> r.value < |s| && s[r.value] == c && forall j | r.value < j < |s| :: s[j] != c
    ensures r.None? ==> forall j | 0 <= j < |s| :: s[j] != c
  {
    if s == [] then None
    else if s[|s| - 1] == c then Some(|s| - 1)
    else
      assert forall j | 0 <= j < |s| - 1 :: s[..|s| - 1][j] == s[j];
      LastIndexOf(s[..|s| - 1], c)
  }

  /** The last occurrence of a character that the rest of the string does
      not contain is found exactly where it was put. */
  lemma {:induction false} LastIndexOfJoin(a: string, c: char, b: string)
    requires c !in b
    ensures LastIndexOf(a + [c] + b, c) == Some(|a|)
  {
    var s := a + [c] + b;
    if b != [] {
      var n := |b| - 1;
      assert s[..|s| - 1] == a + [c] + b[..n];
      assert s[|s| - 1] == b[n];
      LastIndexOfJoin(a, c, b[..n]);
    }
  }

  /** The text after the last '.' of a path; `None` where there is none. */
  function ExtensionOf(path: string): (r: Option<string>)
    ensures r.None? <==> '.' !in path
    ensures r.Some? ==>
      && |r.value| < |path| && path[|path| - |r.value| - 1] == '.'
      && path[|path| - |r.value|..] == r.value && '.' !in r.value
  {
    var dot := LastIndexOf(path, '.');
    if dot.None? then None
    else
      var e := path[dot.value + 1..];
      assert forall j | 0 <= j < |e| :: e[j] == path[dot.value + 1 + j];
      Some(e)
  }

  datatype PathError = NoExtension | UnknownStage(ext: string)

  /** The stage named by a path's extension, case-insensitively; the error
      cases are those where the source panics. */
  function StageOfPath(path: string): (r: Result<ShaderStage, PathError>)
    ensures r == Err(NoExtension) <==> '.' !in path
    ensures r.Err? && r.error.UnknownStage? ==> ExtensionOf(path) == Some(r.error.ext) && ParseStage(r.error.ext).None?
    ensures r.Ok? ==> Lower(ExtensionOf(path).value) == Extension(r.value)
  {
    var ext := ExtensionOf(path);
    if ext.None? then Err(NoExtension)
    else
      var stage := ParseStage(ext.value);
      if stage.None? then Err(UnknownStage(ext.value)) else Ok(stage.value)
  }

  /** Any path ending in '.' and a stage's extension, in either case, names
      that stage, whatever dots the rest of the path holds. */
  lemma StageOfPathRoundTrip(prefix: string, st: ShaderStage)
    ensures StageOfPath(prefix + ['.'] + Extension(st)) == Ok(st)
    ensures StageOfPath(prefix + ['.'] + Upper(Extension(st))) == Ok(st)
  {
    LastIndexOfJoin(prefix, '.', Extension(st));
    assert (prefix + ['.'] + Extension(st))[|prefix| + 1..] == Extension(st);
    ParseStageIgnoresCase(Extension(st), st);
    var u := Upper(Extension(st));
    assert '.' !in u;
    LastIndexOfJoin(prefix, '.', u);
    assert (prefix + ['.'] + u)[|prefix| + 1..] == u;
  }

  /** The name handed to the compiler: the path from its last '/' on, the
      '/' included, or the whole path when it has none. */
  function NameOfPath(path: string): (r: string)
    ensures '/' !in path ==> r == path
    ensures '/' in path ==> |r| > 0 && r[0] == '/' && '/' !in r[1..]
    ensures |r| <= |path| && path[|path| - |r|..] == r
  {
    var slash := LastIndexOf(path, '/');
    var cut := if slash.None? then 0 else slash.value;
    var r := path[cut..];
    assert forall j | 1 <= j < |r| :: r[j] == path[cut + j];
    r
  }

  lemma NameOfPathJoin(dir: string, file: string)
    requires '/' !in file
    ensures NameOfPath(dir + ['/'] + file) == ['/'] + file
  {
    LastIndexOfJoin(dir, '/', file);
    assert (dir + ['/'] + file)[|dir|..] == ['/'] + file;
  }

  /** What the compiler is asked for: the kind of the stage, the file name
      and the entry point. */
  datatype CompileRequest = CompileRequest(kind: ShaderKind, name: string, entry: string)

  /** A compiled shader: its stage, its entry point and its binary, which the
      model represents by what reflection reports about it. */
  datatype MetaShader = MetaShader(stage: ShaderStage, entry: string, bin: R.ShaderReflection)

  datatype MetaError = BadPath(cause: PathError) | CompileFailed

  /** `MetaShader::new`. `compile` stands for reading the file at a path and
      compiling it as requested; `None` where either fails. */
  function NewMeta(path: string, entry: string, compile: (string, CompileRequest) -> Option<R.ShaderReflection>)
    : (r: Result<MetaShader, MetaError>)
    ensures StageOfPath(path).Err? <==> r.Err? && r.error.BadPath?
    ensures r.Err? && r.error.BadPath? ==> r.error.cause == StageOfPath(path).error
    ensures r.Err? && r.error == CompileFailed <==>
      StageOfPath(path).Ok? && compile(path, CompileRequest(KindOf(StageOfPath(path).value), NameOfPath(path), entry)).None?
    ensures r.Ok? ==>
      && r.value.stage == StageOfPath(path).value && r.value.entry == entry
      && StageFromKind(KindOf(r.value.stage)) == Some(r.value.stage)
      && Some(r.value.bin) == compile(path, CompileRequest(KindOf(r.value.stage), NameOfPath(path), entry))
  {
    var stage := StageOfPath(path);
    if stage.Err? then Err(BadPath(stage.error))
    else
      var bin := compile(path, CompileRequest(KindOf(stage.value), NameOfPath(path), entry));
      if bin.None? then Err(CompileFailed)
      else Ok(MetaShader(stage.value, entry, bin.value))
  }

  /** `MetaShader::new_chain`: one shader per (path, entry) pair, in order;
      the first failing pair stops the chain with its error. */
  function NewChain(info: seq<(string, string)>, compile: (string, CompileRequest) -> Option<R.ShaderReflection>)
    : (r: Result<seq<MetaShader>, MetaError>)
    ensures r.Ok? ==> |r.value| == |info|
  {
    MapAll(info, (p: (string, string)) => NewMeta(p.0, p.1, compile))
  }

  /** The chain succeeds exactly when every pair does, and then holds each
      pair's shader at the pair's position; a failing chain reports the
      error of its first failing pair. */
  lemma NewChainSpec(info: seq<(string, string)>, compile: (string, CompileRequest) -> Option<R.ShaderReflection>)
    ensures NewChain(info, compile).Ok? <==> forall i | 0 <= i < |info| :: NewMeta(info[i].0, info[i].1, compile).Ok?
    ensures NewChain(info, compile).Ok? ==>
      forall i | 0 <= i < |info| :: NewMeta(info[i].0, info[i].1, compile) == Ok(NewChain(info, compile).value[i])
    ensures NewChain(info, compile).Err? ==> exists i | 0 <= i < |info| ::
      (&& NewMeta(info[i].0, info[i].1, compile) == Err(NewChain(info, compile).error)
       && forall j | 0 <= j < i :: NewMeta(info[j].0, info[j].1, compile).Ok?)
  {
    var f := (p: (string, string)) => NewMeta(p.0, p.1, compile);
    MapAllOk(info, f);
    if NewChain(info, compile).Err? {
      MapAllFirstError(info, f);
    }
  }

  /** A shader module with its stage and entry point. */
  datatype ShaderArtifact = ShaderArtifact(stage: ShaderStage, entry: string, bin: R.ShaderReflection)

  /** `MetaShader::build`: `None` where the entry point, holding a NUL
      character, cannot become a C string. */
  function BuildArtifact(m: MetaShader): (a: Option<ShaderArtifact>)
    ensures a.Some? <==> '\0' !in m.entry
    ensures a.Some? ==> a.value.stage == m.stage && a.value.entry == m.entry && a.value.bin == m.bin
  {
    if '\0' in m.entry then None else Some(ShaderArtifact(m.stage, m.entry, m.bin))
  }

  /** `vk::PipelineShaderStageCreateInfo`. */
  datatype StageCreateInfo = StageCreateInfo(stage: bv32, name: string, shaderModule: R.ShaderReflection)

  /** `ShaderArtifact::create_info`: the artifact's module and entry point,
      with the single flag of its stage. */
  function CreateInfo(a: ShaderArtifact): (info: StageCreateInfo)
    ensures info.stage != 0 && info.stage & (info.stage - 1) == 0
    ensures info.name == a.entry && info.shaderModule == a.bin
    ensures info.stage == StageFlags(a.stage)
  {
    StageCreateInfo(StageFlags(a.stage), a.entry, a.bin)
  }

  ghost predicate AllReflect(meta: seq<MetaShader>, minOffset: nat) {
    forall i | 0 <= i < |meta| :: Reflects(meta[i].bin, minOffset)
  }

  ghost function BinDescriptors(bin: R.ShaderReflection, minOffset: nat): seq<Descriptor>
    requires Reflects(bin, minOffset)
  {
    DescriptorsOf(R.DescriptorResources(bin), StageOf(bin).value, minOffset)
  }

  ghost function BinPushes(bin: R.ShaderReflection, minOffset: nat): seq<(string, PushConstant)>
    requires Reflects(bin, minOffset)
  {
    PushEntries(bin.pushConstantBuffers, StageOf(bin).value, minOffset)
  }

  /** The builder's set table after adding every binary in order. */
  ghost function ChainData(meta: seq<MetaShader>, minOffset: nat): map<nat, seq<Descriptor>>
    requires AllReflect(meta, minOffset)
  {
    if meta == [] then map[]
    else
      var n := |meta| - 1;
      AppendDescs(ChainData(meta[..n], minOffset), BinDescriptors(meta[n].bin, minOffset))
  }

  /** The builder's push-constant table after adding every binary in order. */
  ghost function ChainPushes(meta: seq<MetaShader>, minOffset: nat): map<string, PushConstant>
    requires AllReflect(meta, minOffset)
  {
    if meta == [] then map[]
    else
      var n := |meta| - 1;
      ChainPushes(meta[..n], minOffset) + Assoc(BinPushes(meta[n].bin, minOffset))
  }

  /** Every descriptor of every binary, in the order they are added. */
  ghost function AllDescriptors(meta: seq<MetaShader>, minOffset: nat): seq<Descriptor>
    requires AllReflect(meta, minOffset)
  {
    if meta == [] then []
    else
      var n := |meta| - 1;
      AllDescriptors(meta[..n], minOffset) + BinDescriptors(meta[n].bin, minOffset)
  }

  /** The pool of a chain holds one size per descriptor of every binary. */
  lemma {:induction false} ChainPoolSizes(meta: seq<MetaShader>, minOffset: nat)
    requires AllReflect(meta, minOffset)
    ensures PoolSizes(ChainData(meta, minOffset)) == multiset(SizesOf(AllDescriptors(meta, minOffset)))
  {
    if meta == [] {
      assert SizesOf([]) == [];
    } else {
      var n := |meta| - 1;
      assert AllReflect(meta[..n], minOffset) by {
        assert forall i | 0 <= i < n :: meta[..n][i] == meta[i];
      }
      var prev := AllDescriptors(meta[..n], minOffset);
      var ds := BinDescriptors(meta[n].bin, minOffset);
      var data := ChainData(meta[..n], minOffset);
      assert AllDescriptors(meta, minOffset) == prev + ds;
      assert ChainData(meta, minOffset) == AppendDescs(data, ds);
      ChainPoolSizes(meta[..n], minOffset);
      PoolSizesAppend(data, ds);
      SizesOfConcat(prev, ds);
    }
  }

  /** The (stage, artifact) pairs of a chain, in order. */
  function ArtifactEntries(meta: seq<MetaShader>): seq<(ShaderStage, ShaderArtifact)>
    requires forall i | 0 <= i < |meta| :: '\0' !in meta[i].entry
  {
    seq(|meta|, i requires 0 <= i < |meta| => (meta[i].stage, BuildArtifact(meta[i]).value))
  }

  /** The artifact kept for a stage is that of the last shader of the stage. */
  lemma ArtifactLastWins(meta: seq<MetaShader>, i: nat)
    requires forall k | 0 <= k < |meta| :: '\0' !in meta[k].entry
    requires i < |meta| && forall j | i < j < |meta| :: meta[j].stage != meta[i].stage
    ensures meta[i].stage in Assoc(ArtifactEntries(meta))
    ensures Assoc(ArtifactEntries(meta))[meta[i].stage] == ShaderArtifact(meta[i].stage, meta[i].entry, meta[i].bin)
  {
    AssocLastWins(ArtifactEntries(meta), i);
  }

  lemma ChainStep(meta: seq<MetaShader>, i: nat, minOffset: nat)
    requires i < |meta| && AllReflect(meta[..i], minOffset) && Reflects(meta[i].bin, minOffset)
    ensures AllReflect(meta[..i + 1], minOffset)
    ensures ChainData(meta[..i + 1], minOffset)
      == AppendDescs(ChainData(meta[..i], minOffset), BinDescriptors(meta[i].bin, minOffset))
    ensures ChainPushes(meta[..i + 1], minOffset)
      == ChainPushes(meta[..i], minOffset) + Assoc(BinPushes(meta[i].bin, minOffset))
  {
    assert meta[..i + 1][..i] == meta[..i];
  }

  /** The first loop of `MetaShader::build_chain`: each binary is added to
      the builder in order; `ok` is false where an addition panics. */
  method AddAll(builder: DescPoolBuilder, meta: seq<MetaShader>) returns (ok: bool)
    requires builder.Valid() && builder.data == map[] && builder.pushConsts == map[]
    modifies builder
    ensures builder.Valid()
    ensures ok <==> AllReflect(meta, builder.minOffset)
    ensures ok ==> builder.data == ChainData(meta, builder.minOffset)
    ensures ok ==> builder.pushConsts == ChainPushes(meta, builder.minOffset)
  {
    var i := 0;
    while i < |meta|
      invariant 0 <= i <= |meta|
      invariant builder.Valid()
      invariant AllReflect(meta[..i], builder.minOffset)
      invariant builder.data == ChainData(meta[..i], builder.minOffset)
      invariant builder.pushConsts == ChainPushes(meta[..i], builder.minOffset)
    {
      var added := builder.Add(meta[i].bin);
      if !added {
        assert !AllReflect(meta, builder.minOffset);
        return false;
      }
      ChainStep(meta, i, builder.minOffset);
      i := i + 1;
    }
    assert meta[..i] == meta;
    ok := true;
  }

  /** The artifact table of `MetaShader::build_chain`: every shader is built,
      and the table is keyed by stage, the later shader of a stage winning. */
  method BuildArtifacts(meta: seq<MetaShader>) returns (r: Option<map<ShaderStage, ShaderArtifact>>)
    ensures r.Some? <==> forall i | 0 <= i < |meta| :: '\0' !in meta[i].entry
    ensures r.Some? ==> r.value == Assoc(ArtifactEntries(meta))
  {
    var entries: seq<(ShaderStage, ShaderArtifact)> := [];
    var k := 0;
    while k < |meta|
      invariant 0 <= k <= |meta|
      invariant forall j | 0 <= j < k :: '\0' !in meta[j].entry
      invariant entries == ArtifactEntries(meta[..k])
    {
      var a := BuildArtifact(meta[k]);
      if a.None? {
        return None;
      }
      assert meta[..k + 1][..k] == meta[..k];
      entries := entries + [(meta[k].stage, a.value)];
      k := k + 1;
    }
    assert meta[..k] == meta;
    r := Some(Assoc(entries));
  }

  /** `MetaShader::build_chain`: adds every binary to a fresh builder in
      order, builds the pool, then builds the artifacts. `None` where the
      source panics. */
  method BuildChain(meta: seq<MetaShader>, minOffset: nat)
    returns (r: Option<(map<ShaderStage, ShaderArtifact>, DescPoolToken, map<string, PushConstant>)>, ghost order: seq<nat>)
    ensures r.Some? <==> AllReflect(meta, minOffset) && forall i | 0 <= i < |meta| :: '\0' !in meta[i].entry
    ensures r.Some? ==> r.value.0 == Assoc(ArtifactEntries(meta))
    ensures r.Some? ==> r.value.2 == ChainPushes(meta, minOffset)
    ensures r.Some? ==>
      var data := ChainData(meta, minOffset);
      var token := r.value.1;
      && NoDuplicates(order) && (forall s :: s in order <==> s in data)
      && multiset(token.pool.sizes) == PoolSizes(data)
      && token.pool.maxSets == |data|
      && |token.sets| == |order|
      && forall j | 0 <= j < |order| :: token.sets[j] == SetTokenOf(j, data[order[j]])
  {
    var builder := new DescPoolBuilder(minOffset);
    var ok := AddAll(builder, meta);
    if !ok {
      return None, [];
    }
    var token, pushes;
    token, pushes, order := builder.Build();
    var artifacts := BuildArtifacts(meta);
    if artifacts.None? {
      return None, order;
    }
    r := Some((artifacts.value, token, pushes));
  }
}
