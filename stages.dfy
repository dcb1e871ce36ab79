/** The shader-stage enumeration and its conversions (src/shader.rs). */
module Stages {
  import opened Collections

  /** Declared in the order Vert, Geom, Frag; the hand-written ordering
      below is a different one. */
  datatype ShaderStage = Vert | Geom | Frag

  datatype Ordering = Less | Equal | Greater

  /** The result of `partial_cmp`: always present, so `cmp` unwraps it. */
  function PartialCompare(a: ShaderStage, b: ShaderStage): (r: Option<Ordering>)
    ensures r.Some?
  {
    Some(match a
      case Vert => if b == Vert then Equal else Less
      case Frag => (match b
        case Vert => Greater
        case Frag => Equal
        case Geom => Less)
      case Geom => if b == Geom then Equal else Greater)
  }

  /** `Ord::cmp`. */
  function Compare(a: ShaderStage, b: ShaderStage): (r: Ordering)
    ensures r == Equal <==> a == b
  {
    PartialCompare(a, b).value
  }

  /** Position of a stage in the pipeline: the reference the ordering is
      checked against. */
  function Position(s: ShaderStage): nat {
    match s
    case Vert => 0
    case Frag => 1
    case Geom => 2
  }

  /** `Compare` is the order of pipeline positions: Vert < Frag < Geom. */
  lemma CompareIsPositionOrder(a: ShaderStage, b: ShaderStage)
    ensures Compare(a, b) == Less <==> Position(a) < Position(b)
    ensures Compare(a, b) == Greater <==> Position(a) > Position(b)
    ensures Compare(Vert, Frag) == Less && Compare(Frag, Geom) == Less
  {
  }

  /** The ordering is antisymmetric: swapping the operands flips the answer. */
  lemma CompareAntisymmetric(a: ShaderStage, b: ShaderStage)
    ensures Compare(a, b) == Less <==> Compare(b, a) == Greater
  {
  }

  /** The ordering is transitive. */
  lemma CompareTransitive(a: ShaderStage, b: ShaderStage, c: ShaderStage)
    requires Compare(a, b) == Less && Compare(b, c) == Less
    ensures Compare(a, c) == Less
  {
    CompareIsPositionOrder(a, b);
    CompareIsPositionOrder(b, c);
    CompareIsPositionOrder(a, c);
  }

  /** The shader kinds of the `shaderc` compiler that this model names; the
      compiler defines more, none of which has a stage. */
  datatype ShaderKind =
    | VertexKind | FragmentKind | ComputeKind | GeometryKind
    | TessControlKind | TessEvaluationKind | InferFromSourceKind

  /** `From<ShaderKind> for ShaderStage`: `None` where the source panics. */
  function StageFromKind(k: ShaderKind): (r: Option<ShaderStage>)
    ensures r.Some? <==> k in {VertexKind, GeometryKind, FragmentKind}
  {
    match k
    case VertexKind => Some(Vert)
    case GeometryKind => Some(Geom)
    case FragmentKind => Some(Frag)
    case _ => None
  }

  /** `Into<ShaderKind> for ShaderStage`. */
  function KindOf(s: ShaderStage): (k: ShaderKind)
    ensures StageFromKind(k) == Some(s)
  {
    match s
    case Vert => VertexKind
    case Geom => GeometryKind
    case Frag => FragmentKind
  }

  /** Converting to a compiler kind and back is the identity, and a kind that
      converts to a stage is the kind of that stage. */
  lemma KindRoundTrip(s: ShaderStage, k: ShaderKind)
    ensures StageFromKind(KindOf(s)) == Some(s)
    ensures StageFromKind(k) == Some(s) ==> KindOf(s) == k
  {
  }

  /** The execution models of section 3.3 of the SPIR-V specification
      (Execution Model) that a graphics or compute entry point can declare. */
  datatype ExecutionModel =
    | VertexModel | TessellationControlModel | TessellationEvaluationModel
    | GeometryModel | FragmentModel | GLComputeModel | KernelModel

  /** `From<ExecutionModel> for ShaderStage`: `None` where the source panics. */
  function StageFromModel(m: ExecutionModel): (r: Option<ShaderStage>)
    ensures r == Some(Vert) <==> m == VertexModel
    ensures r == Some(Geom) <==> m == GeometryModel
    ensures r == Some(Frag) <==> m == FragmentModel
  {
    match m
    case VertexModel => Some(Vert)
    case GeometryModel => Some(Geom)
    case FragmentModel => Some(Frag)
    case _ => None
  }

  /** `VkShaderStageFlagBits` values from the Vulkan specification. */
  const VERTEX_BIT: bv32 := 0x1
  const GEOMETRY_BIT: bv32 := 0x8
  const FRAGMENT_BIT: bv32 := 0x10

  /** `Into<ShaderStageFlags> for ShaderStage`: one bit per stage. */
  function StageFlags(s: ShaderStage): (f: bv32)
    ensures f != 0 && f & (f - 1) == 0
  {
    match s
    case Vert => VERTEX_BIT
    case Geom => GEOMETRY_BIT
    case Frag => FRAGMENT_BIT
  }

  /** Different stages get disjoint flags, so the mapping is injective. */
  lemma StageFlagsInjective(a: ShaderStage, b: ShaderStage)
    ensures a != b ==> StageFlags(a) & StageFlags(b) == 0
    ensures StageFlags(a) == StageFlags(b) ==> a == b
  {
  }

  /** ASCII lower-casing. Rust's `to_lowercase` folds all of Unicode, but
      no character outside 'A'..'Z' lower-cases to a letter of "vert",
      "frag" or "geom", so the parse below is unaffected. */
  function LowerChar(c: char): char {
    if 'A' <= c <= 'Z' then (c as int + 32) as char else c
  }

  function UpperChar(c: char): char {
    if 'a' <= c <= 'z' then (c as int - 32) as char else c
  }

  function Lower(s: string): (r: string)
    ensures |r| == |s| && forall i | 0 <= i < |s| :: r[i] == LowerChar(s[i])
  {
    seq(|s|, i requires 0 <= i < |s| => LowerChar(s[i]))
  }

  function Upper(s: string): (r: string)
    ensures |r| == |s| && forall i | 0 <= i < |s| :: r[i] == UpperChar(s[i])
  {
    seq(|s|, i requires 0 <= i < |s| => UpperChar(s[i]))
  }

  /** The file extension that names a stage. */
  function Extension(s: ShaderStage): string {
    match s
    case Vert => "vert"
    case Frag => "frag"
    case Geom => "geom"
  }

  /** `From<&str> for ShaderStage`: `None` where the source panics. */
  function ParseStage(s: string): (r: Option<ShaderStage>)
    ensures r.Some? ==> Lower(s) == Extension(r.value)
    ensures r.None? ==> forall st: ShaderStage :: Lower(s) != Extension(st)
  {
    var l := Lower(s);
    if l == "vert" then Some(Vert)
    else if l == "frag" then Some(Frag)
    else if l == "geom" then Some(Geom)
    else None
  }

  /** Parsing ignores case: a string parses exactly as its lower-case and its
      upper-case forms do, and every stage's extension parses back to it in
      either case. */
  lemma ParseStageIgnoresCase(s: string, st: ShaderStage)
    ensures ParseStage(Lower(s)) == ParseStage(s)
    ensures ParseStage(Upper(s)) == ParseStage(s)
    ensures ParseStage(Extension(st)) == Some(st)
    ensures ParseStage(Upper(Extension(st))) == Some(st)
  {
    assert Lower(Lower(s)) == Lower(s);
    assert Lower(Upper(s)) == Lower(s);
    assert Lower(Extension(st)) == Extension(st);
    assert Lower(Upper(Extension(st))) == Extension(st);
  }
}
