/** What the SPIR-V reflection library reports about one compiled shader,
    as plain records. The library itself is not part of this model: its
    answers are the inputs of the descriptor logic. */
module Reflection {
  import opened Stages

  datatype ScalarKind =
    | Boolean | Char | Int | UInt | Int64 | UInt64 | AtomicCounter
    | Half | Float | Double | SByte | UByte | Short | UShort

  /** A reflected type. `array` lists the array dimensions (empty for a
      non-array). `Unsupported` stands for every other type the library can
      report (control-point arrays, acceleration structures, ...). */
  datatype ReflectedType =
    | Unknown
    | Void
    | Scalar(kind: ScalarKind, array: seq<nat>)
    | Struct(array: seq<nat>, members: seq<Member>)
    | Image(array: seq<nat>)
    | SampledImage(array: seq<nat>)
    | Sampler(array: seq<nat>)
    | Unsupported

  /** One member of a block: its name, its type, the byte offset of its
      `Offset` decoration (section 3.20 of the SPIR-V specification,
      Decoration) and its declared byte size. */
  datatype Member = Member(name: string, ty: ReflectedType, offset: nat, size: nat)

  /** One shader resource: its name, the values of its `DescriptorSet` and
      `Binding` decorations, and its type. */
  datatype Resource = Resource(name: string, setIndex: nat, binding: nat, ty: ReflectedType)

  /** The shader resources of one binary, list by list, and the execution
      models of its entry points. */
  datatype ShaderReflection = ShaderReflection(
    entryPoints: seq<ExecutionModel>,
    uniformBuffers: seq<Resource>,
    sampledImages: seq<Resource>,
    separateImages: seq<Resource>,
    separateSamplers: seq<Resource>,
    storageBuffers: seq<Resource>,
    storageImages: seq<Resource>,
    pushConstantBuffers: seq<Resource>)

  /** The order in which the descriptor builder visits the resources. */
  function DescriptorResources(r: ShaderReflection): seq<Resource> {
    r.uniformBuffers + r.sampledImages + r.separateImages
      + r.separateSamplers + r.storageBuffers + r.storageImages
  }
}
