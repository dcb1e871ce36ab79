# Flint core in Dafny

Flint is a thin Rust wrapper over Vulkan. Most of it passes values straight
to the driver. This project models the parts that carry logic of their own:

- **Descriptors** (`descriptor.dfy`, module `Descriptors`):
  - how a reflected shader resource becomes a `Descriptor`: kind and count from its type, and a field table whose offsets are rounded up to the device's minimum uniform-buffer offset;
  - how a push-constant block is sized;
  - how a push-constant write is checked and where it lands.
- **Descriptor pool** (`pool.dfy`, module `DescriptorPool`):
  - the `DescPoolBuilder` class, which accumulates descriptors per set index and push-constant blocks by name, one shader binary at a time;
  - `build`, which derives the pool sizes, `max_sets` and one set token per set index;
  - `make_writes`, `update_desc_sets` and `make_buffers`.
- **Structured buffers** (`buf_struct.dfy`, module `BufStructs`):
  - the `BufStruct` class: a field table and a buffer size computed by a running-maximum loop, over a byte array standing for the buffer memory;
  - size-checked field writes that touch only the field's byte range.
- **Shader stages** (`stages.dfy`, module `Stages`):
  - the hand-written order Vert < Frag < Geom;
  - case-insensitive parsing of a file extension;
  - the conversions to and from the compiler's shader kind, the SPIR-V execution model and the Vulkan stage flags.
- **Shader chains** (`shaders.dfy`, module `Shaders`):
  - the path handling of `MetaShader::new`, and `new_chain`;
  - `build_chain`, which feeds every binary to one builder in order, then builds the pool and the per-stage artifact map.
- **Swapchain** (`swapchain.dfy`, module `Swapchain`):
  - the surface-capability rules: format fallback, present-mode preference, extent passthrough and clamping, image-count clamping and pre-transform choice;
  - the `SwapToken` class: framebuffer, scissor and render-area shapes, the draining `clean` and `recreate`.

Supporting modules:

- `collections.dfy` (`Collections`) holds `Option`, `Result`, and `Assoc`. `Assoc` is the map that inserting a sequence of pairs one by one into a hash map yields, where a later key replaces an earlier one. It also holds order-independent sums and unions over maps.
- `reflection.dfy` (`Reflection`) holds the records that shader reflection reports.
- `arithmetic.dfy` (`Arithmetic`) holds three facts about multiples.

How the source's conventions appear in the model:

- A panic becomes an error value: `None`, `Err(..)`, or `ok == false` from a method.
- The order in which a `HashMap` is iterated is not specified. Methods that iterate one pick each key nondeterministically. Their contracts speak of multisets, of sets, or of a ghost `order` they return.
- Vulkan handles are opaque numbers.

## Model

| member | source | states |
|---|---|---|
| Stages.PartialCompare | src/shader.rs:31-56 | the partial comparison is defined for every pair of stages |
| Stages.Compare | src/shader.rs:25-29 | two stages compare Equal exactly when they are the same stage |
| Stages.CompareIsPositionOrder | src/shader.rs:31-56 | Less and Greater follow the order Vert < Frag < Geom, which is not the declaration order |
| Stages.CompareAntisymmetric | src/shader.rs:31-56 | a is Less than b exactly when b is Greater than a |
| Stages.CompareTransitive | src/shader.rs:31-56 | Less is transitive, so the comparison is a total order |
| Stages.StageFromKind | src/shader.rs:58-67 | a stage exists exactly for the vertex, geometry and fragment kinds; every other kind panics |
| Stages.KindOf | src/shader.rs:82-90 | converting the resulting kind back gives the same stage |
| Stages.KindRoundTrip | src/shader.rs:58-90 | stage to kind to stage is the identity, and a kind that converts to a stage is the kind of that stage |
| Stages.StageFromModel | src/shader.rs:69-80 | Vertex, Geometry and Fragment execution models give Vert, Geom and Frag respectively (both directions); every other model panics |
| Stages.StageFlags | src/shader.rs:92-100 | each stage's flags are a single bit |
| Stages.StageFlagsInjective | src/shader.rs:92-100 | different stages have disjoint flags, so equal flags mean the same stage |
| Stages.Lower | src/shader.rs:104 | lower-casing keeps the length and lowers each character |
| Stages.ParseStage | src/shader.rs:102-111 | a parsed stage's name equals the lower-cased input; a string whose lower-case form names no stage panics |
| Stages.ParseStageIgnoresCase | src/shader.rs:102-111 | parsing ignores case; every stage's name, in either case, parses back to that stage |
| Descriptors.CrossToAsh | src/shader/descriptor.rs:203-231 | panics exactly on the unsupported types; the count is at least 1, and equals the number of array dimensions when there are any; images map to SAMPLED_IMAGE, sampled images to COMBINED_IMAGE_SAMPLER, samplers to SAMPLER, and structs, scalars, Unknown and Void to UNIFORM_BUFFER |
| Descriptors.AlignUp | src/shader/descriptor.rs:83-94 | the aligned offset is a multiple of the minimum offset, at least the declared offset and below it plus the minimum, and unchanged when already a multiple |
| Descriptors.AlignUpIsLeast | src/shader/descriptor.rs:90-94 | the aligned offset is the least multiple not below the declared offset |
| Descriptors.FieldOf | src/shader/descriptor.rs:69-104 | a field exists exactly when the member type is supported and the minimum offset is not 0; it keeps the member's index and unrounded size, has an aligned offset and takes the kind and count of the member type |
| Descriptors.NewField | src/shader/descriptor.rs:69-104 | the step-by-step construction agrees with FieldOf |
| Descriptors.FieldTableShape | src/shader/descriptor.rs:45-67 | a non-struct type has an empty table; a struct's table is defined exactly when every member yields a field, and then holds one entry per member name |
| Descriptors.FieldTableEntry | src/shader/descriptor.rs:59-64 | the entry for a member name is the field of the last member with that name |
| Descriptors.FieldTableAligned | src/shader/descriptor.rs:45-67 | every field in a table has an aligned offset and comes from some member with that name, index and size |
| Descriptors.FieldsFromResource | src/shader/descriptor.rs:45-67 | the loop builds exactly the field table of the type, or fails where a member has no field |
| Descriptors.DescriptorOf | src/shader/descriptor.rs:148-176 | a descriptor exists exactly when the type maps to a kind and its table is defined; it keeps the set index, binding and name, and carries the kind, count, stage and field table |
| Descriptors.NewDescriptor | src/shader/descriptor.rs:148-176 | the construction agrees with DescriptorOf |
| Descriptors.MakeWrite | src/shader/descriptor.rs:185-200 | the write targets the given set and the descriptor's binding, with its count and kind; exactly the pointer matching the info variant is set, and it points at the info's resource |
| Descriptors.BindingAgrees | src/shader/descriptor.rs:107-117 | the layout binding, the pool size and every write of one descriptor agree on binding, kind and count; the binding carries the descriptor's stage |
| Descriptors.NewPushConstant | src/shader/descriptor.rs:273-296 | a block exists exactly when its field table does; its range has offset 0, the reflecting stage, and size equal to the sum of the field sizes |
| Descriptors.SizeSumOfDistinctMembers | src/shader/descriptor.rs:288-291 | with distinct member names, the range size is the sum of the declared member sizes; the aligned offsets play no part |
| Descriptors.PushWrite | src/shader/descriptor.rs:240-271 | an unknown field and a payload whose length is not the field size are errors, and the write succeeds exactly otherwise; it pushes the payload with the block's stage flags at the range offset plus the field offset truncated to 32 bits |
| DescriptorPool.StageOf | src/shader/descriptor.rs:309-312 | the stage flags come from the first entry point's execution model; a binary with no entry point or another model panics |
| DescriptorPool.InSet | src/shader/descriptor.rs:328-331 | the descriptors of one set index, in order, and no others |
| DescriptorPool.AppendDescsPerSet | src/shader/descriptor.rs:318-332 | after adding, a set's list is its old list followed by the new descriptors of that set in resource order; other sets are untouched; a set exists exactly when it did before or gained a descriptor |
| DescriptorPool.PoolSizesAppend | src/shader/descriptor.rs:347-352 | adding descriptors adds exactly one pool size per descriptor to the multiset of pool sizes |
| DescriptorPool.PoolSizesUpdate | src/shader/descriptor.rs:347-352 | replacing one set's list changes the pool sizes by exactly the sizes of the old and new lists |
| DescriptorPool.ByNameFrom | src/shader/descriptor.rs:379-381 | every descriptor in a set token's name table is one of the set's descriptors, filed under its own name; a non-empty set gives a non-empty table |
| DescriptorPool.SetTokenValid | src/shader/descriptor.rs:360-407 | a set token made from a valid set list names at least one descriptor, each of that set index and with aligned fields |
| DescriptorPool.ByNameLastWins | src/shader/descriptor.rs:379-381 | a set token's descriptor map is keyed by the names in the set, and a name maps to its last descriptor |
| DescriptorPool.AppendResources | src/shader/descriptor.rs:318-332 | the loop succeeds exactly when every resource yields a descriptor, and then appends them per set as AppendDescs does, keeping every field table aligned |
| DescriptorPool.InsertPushConstants | src/shader/descriptor.rs:334-338 | the loop succeeds exactly when every block has a field table, and then inserts the blocks by name, a later name replacing an earlier one |
| DescriptorPool.DescPoolBuilder.constructor | src/shader/descriptor.rs:478-484 | a builder starts with the given minimum offset and no sets and no push constants |
| DescriptorPool.DescPoolBuilder.Add | src/shader/descriptor.rs:305-343 | add succeeds exactly when the binary reflects; the set lists gain the binary's descriptors in resource-chain order, and the push-constant map gains its blocks by name, last wins |
| DescriptorPool.DescPoolBuilder.Build | src/shader/descriptor.rs:345-409 | the pool sizes are one per accumulated descriptor, as a multiset; max_sets is the number of set indices; one set token per set index, in one visiting order, each keyed by name; the push constants are passed through; given a valid builder (no empty list, every descriptor in its own set, every offset aligned), every set token names at least one descriptor, each of the token's set index with aligned field offsets, and every returned push-constant block has aligned offsets |
| DescriptorPool.CollectSizes | src/shader/descriptor.rs:347-352 | visits each set index once and collects exactly the pool sizes of all its descriptors |
| DescriptorPool.MakeSets | src/shader/descriptor.rs:360-407 | one set token per visited set index, the j-th allocated set for the j-th index |
| DescriptorPool.TwoSetsPool | src/shader/descriptor.rs:345-357 | a sampler in set 1 and a uniform block in set 0 give two sets and one pool size of each kind |
| DescriptorPool.MakeWrites | src/shader/descriptor.rs:439-449 | no more writes than requests, all aimed at this set, and none when no requested name is in the set |
| DescriptorPool.MakeWritesAppend | src/shader/descriptor.rs:439-449 | the writes for two request lists are the writes of each, in order, so request order is kept |
| DescriptorPool.MakeWritesSingle | src/shader/descriptor.rs:439-449 | one request gives the descriptor's write when the name is in the set and nothing otherwise |
| DescriptorPool.UpdateWrites | src/shader/descriptor.rs:504-514 | every write targets one of the sets, and there are none when no set knows any requested name |
| DescriptorPool.UpdateWritesAppend | src/shader/descriptor.rs:504-509 | the writes for a concatenation of sets are the writes for each part, in set order |
| DescriptorPool.UpdateWritesSingle | src/shader/descriptor.rs:504-509 | one set contributes exactly its own make_writes |
| DescriptorPool.MakeBuffers | src/shader/descriptor.rs:486-502 | no buffer is built from an empty field table |
| DescriptorPool.MakeBuffersKeys | src/shader/descriptor.rs:486-502 | a name gets a buffer exactly when some set has a descriptor of that name with fields |
| DescriptorPool.MakeBuffersLastWins | src/shader/descriptor.rs:486-502 | the buffer for a name is built from the last set that has that name with fields |
| BufStructs.FarField | src/buffer/buf_struct.rs:60-68 | the kept offset is at least every offset; it is (0, 0) for no fields; otherwise it is the offset and size of a field after which every offset is smaller, so a tie goes to the later field |
| BufStructs.OrderedFieldsFit | src/buffer/buf_struct.rs:69-70 | for fields in strictly increasing, non-overlapping offset order, the size reaches the end of every field |
| BufStructs.OffsetsIncrease | src/buffer/buf_struct.rs:64-67 | in strictly increasing offsets the last field is the one the running maximum keeps |
| BufStructs.OverlapFallsShort | src/buffer/buf_struct.rs:69-70 | with overlapping fields the size can fall short of a field's end: a 300-byte field at 0 and a 4-byte field at 256 give 260 |
| BufStructs.EqualOffsetsDependOnOrder | src/buffer/buf_struct.rs:64-70 | two fields at the same offset give a size that depends on which one the iterator yields last |
| BufStructs.Splice | src/buffer/buf_struct.rs:23-38 | copying data in at an offset keeps the length, puts the data in that range and leaves every other byte alone |
| BufStructs.SpliceCommute | src/buffer/buf_struct.rs:23-38 | copies to disjoint ranges may be made in either order |
| BufStructs.BufStruct.FromFields | src/buffer/buf_struct.rs:49-72 | the table holds every (name, offset, size), a later name replacing an earlier one; the buffer size is the end of the greatest-offset field, 0 for none; the memory is the driver's allocation for that size, which is at least that size |
| BufStructs.BufStruct.MapWrite | src/buffer/buf_struct.rs:19-40 | an unknown name and a field range beyond the allocated memory fail, and a payload longer than the field is reported as `Overflow` (see Left out); on success the payload is copied at the field's offset and every other byte is unchanged; a failure changes nothing |
| BufStructs.BufStruct.Write | src/buffer/buf_struct.rs:42-47 | an unknown name and a length other than the field size fail before any mapping; a matching write succeeds exactly when the field lies within the allocated memory (otherwise the mapping fails), so always when it ends within the buffer size, fills exactly the field's bytes and leaves the rest unchanged; the table and size are constants |
| Shaders.LastIndexOf | src/shader.rs:126-128 | the index of the last occurrence of a character, or none when it does not occur |
| Shaders.LastIndexOfJoin | src/shader.rs:126-128 | in a + [c] + b with no c in b, the last c is at position \|a\| |
| Shaders.ExtensionOf | src/shader.rs:126 | there is no extension exactly when the path has no '.'; otherwise it is the text after the last '.' |
| Shaders.StageOfPath | src/shader.rs:126 | a path without '.' is an error; an unknown extension is reported; a parsed stage's name is the lower-cased extension |
| Shaders.StageOfPathRoundTrip | src/shader.rs:126 | any path ending in '.' and a stage's name, in either case, yields that stage |
| Shaders.NameOfPath | src/shader.rs:128 | the whole path when it has no '/'; otherwise the suffix starting at the last '/', which it keeps |
| Shaders.NameOfPathJoin | src/shader.rs:128 | dir + "/" + file gives "/" + file |
| Shaders.NewMeta | src/shader.rs:120-142 | a bad path is reported with its cause; otherwise compilation is asked for the stage's kind, the name and the entry, and its result is kept with the stage and entry |
| Shaders.NewChain | src/shader.rs:144-152 | a successful chain has one shader per input pair |
| Shaders.NewChainSpec | src/shader.rs:144-152 | the chain succeeds exactly when every pair does, holds each pair's shader at its position, and otherwise reports the first failing pair's error |
| Shaders.BuildArtifact | src/shader.rs:154-164 | building fails exactly when the entry point contains a NUL; it keeps the stage, entry and binary |
| Shaders.CreateInfo | src/shader.rs:205-211 | the stage-create info names the artifact's module and entry, and its flags are the single bit of its stage |
| Shaders.ChainPoolSizes | src/shader.rs:175-181 | the pool of a chain holds one pool size per descriptor of every binary |
| Shaders.ArtifactLastWins | src/shader.rs:183 | the artifact map holds each stage of the chain, built from the last shader of that stage |
| Shaders.AddAll | src/shader.rs:177-179 | every binary is added to the builder in input order; it succeeds exactly when all reflect |
| Shaders.BuildArtifacts | src/shader.rs:183 | the artifact map exists exactly when no entry point contains a NUL, and is keyed by stage, last wins |
| Shaders.BuildChain | src/shader.rs:166-187 | succeeds exactly when every binary reflects and every entry point builds; the pool, set tokens and push constants are those of all binaries added in order, and the artifacts are keyed by stage |
| Swapchain.ChooseFormat | src/base/swapchain.rs:45-56 | an empty list panics; otherwise the first entry, with UNDEFINED replaced by B8G8R8_UNORM and the colour space kept; never UNDEFINED |
| Swapchain.PreferredMode | src/base/swapchain.rs:75-87 | the mode is MAILBOX, IMMEDIATE or FIFO; anything but FIFO is in the list; no listed mode ranks above it |
| Swapchain.PreferredModeCases | src/base/swapchain.rs:75-87 | MAILBOX if listed, else IMMEDIATE if listed, else FIFO; the order of the list does not matter |
| Swapchain.ChooseMode | src/base/swapchain.rs:75-87 | the loop with early return gives PreferredMode |
| Swapchain.Clamp | src/base/swapchain.rs:96-99 | in [n, x] when n <= x; the value itself when in range; n when below n or when x < n; x when above x |
| Swapchain.ChooseExtent | src/base/swapchain.rs:89-121 | the current extent when its width is not u32::MAX; otherwise exactly the window width and height each clamped into its capability bounds, which lies within the bounds where they are ordered and equals the window size when it is within them |
| Swapchain.ImageCount | src/base/swapchain.rs:190-193 | min_image_count + 1, lowered to max_image_count only when that is non-zero and exceeded |
| Swapchain.DesiredImageCount | src/base/swapchain.rs:190-193 | the step-by-step adjustment gives ImageCount |
| Swapchain.PreTransform | src/base/swapchain.rs:194-201 | IDENTITY when supported, otherwise the current transform, which stays supported when it was |
| Swapchain.SelectParams | src/base/swapchain.rs:185-237 | the create parameters exist exactly when there are formats and an extent; they use the chosen format, mode, extent, image count and transform, one layer, and a D16 depth image of the same extent and depth 1 |
| Swapchain.FramebuffersViews | src/base/swapchain.rs:424-440 | one framebuffer per image view in view order: the colour attachments read back as the views, and the list distributes over concatenation |
| Swapchain.CleanReleasesEach | src/base/swapchain.rs:315-326 | clean frees each framebuffer and each image view once per occurrence (the depth view once more), then the swapchain, depth memory and depth image |
| Swapchain.SwapToken.Create | src/base/swapchain.rs:409-452 | the token holds one framebuffer per view with the extent and one layer, and a scissor at (0, 0) with the extent |
| Swapchain.SwapToken.RenderPassBeginInfo | src/base/swapchain.rs:363-377 | defined exactly for an index below the framebuffer count; the render area is (0, 0) and the extent, equal to the scissor, and the framebuffer's colour attachment is that image's view |
| Swapchain.SwapToken.Clean | src/base/swapchain.rs:315-326 | both lists are drained to empty, the releases are appended in source order, and everything else is unchanged |
| Swapchain.SwapToken.Recreate | src/base/swapchain.rs:328-361 | cleans, then holds the new base, views and render pass with fresh framebuffers and scissor |
| Collections.Assoc | src/buffer/buf_struct.rs:59-63 | the keys of the map are exactly the inserted keys |
| Collections.AssocLastWins | src/buffer/buf_struct.rs:59-63 | a key maps to the value of its last insertion |

## Left out

- Driver calls are not part of this model. This covers every create, destroy, allocate, map, submit and wait call through `ash`. Their results are opaque handle numbers. An allocated descriptor set's handle is its position in the allocation. A framebuffer is represented by its create info. Driver failures (the `unwrap`s on driver results) are not modelled, with one exception: mapping a field range that extends past the buffer's allocation is reported as `MapFailed` by `BufStructs.BufStruct.MapWrite` and `BufStructs.BufStruct.Write`.
- Shader reflection and compilation are not part of this model:
  - A binary is represented by what reflection reports about it (`Reflection.ShaderReflection`).
  - Reading a shader file and compiling it is a function parameter of `Shaders.NewMeta`.
  - A shader module is represented by its binary.
- Hash-map iteration order is not modelled. Pool sizes are stated as a multiset, and the set tokens follow a ghost visiting order. The source iterates `data` twice (for the sizes and for the sets); the model uses one visiting order for both.
- Logging (`dbg!`, `eprintln!`) is left out.
- Floating point is left out:
  - the viewport rectangle built in `SwapToken::create`;
  - the `f64` window size, which is taken as an optional `u32` extent (`None` is the window without a size, which panics).
- Pipelines are left out: `make_pipeline` and the re-creation of pipelines in `recreate`. The command pool and the depth-image layout transition in `create` are left out too.
- BufStructs.BufStruct.MapWrite: the source does not compare the payload length with the field size; an over-long copy through the mapped `Align` is unchecked, and what it does to memory is not modelled. The model reports `Overflow` in its place and leaves the memory unchanged. `BufStructs.BufStruct.Write`, its only caller within the crate, rejects such payloads first, so its contract is unaffected.
- Memory-type selection and the `Align` copy internals are left out. A mapped write is a replacement of a byte range.
- BufStructs.BufStruct.FromFields: the allocation size the driver reports for the buffer (`req.size`, src/buffer.rs:99-116) is a parameter. It is required to be at least the requested size, as Vulkan guarantees for memory requirements; its exact value is not modelled.
- `Descriptor::make_buffer` panics on an empty field table. It cannot panic when called through `make_buffers`, which skips such descriptors, so only the field table it builds from is modelled.
- Lower-casing in stage parsing is ASCII-only. That is exact for the three stage names; a non-ASCII string never parses either way.
- Character indices stand for the byte indices of `rfind` and `split_at`.
- `set` and `binding` are `u32` in the source and unbounded naturals here.
- Descriptors.PushWrite: the offset `range.offset + field.offset as u32` is an unbounded sum, so a u32 overflow of the addition is not modelled (the range offset is always 0).
- Descriptors.NewPushConstant: the size is the unbounded sum of the field sizes, so the `as u32` truncation of each size and a u32 overflow of the fold are not modelled.
- DescriptorPool.DescPoolBuilder.Build: `max_sets` is the number of set indices without the `as u32` truncation.
- Swapchain.ImageCount: `min_image_count + 1` is unbounded, so its overflow at u32::MAX is not modelled.
- Swapchain.SwapToken.RenderPassBeginInfo: the present index is a natural; the `as usize` widening is not modelled.

The following are behaviours of the source as written, which the model keeps and states:

- Aligned field offsets can collide. With a minimum offset of 256, members at offsets 16 and 32 both land at 256 (`Descriptors.AlignUp`).
- The push-constant range size is the sum of the declared sizes even though the field offsets are aligned, so a field can end past the range (`Descriptors.SizeSumOfDistinctMembers`).
- A structured buffer is sized to the end of its greatest-offset field, not to the greatest field end (`BufStructs.OverlapFallsShort`, `BufStructs.EqualOffsetsDependOnOrder`). A write to a field that ends past that size still succeeds when the driver's allocation covers the field, and fails to map otherwise.
- When two sets hold a descriptor with the same name, `make_buffers` keeps the one from the later set (`DescriptorPool.MakeBuffersLastWins`).
- An entry point containing a NUL panics when the artifact is built (`Shaders.BuildArtifact`).
- The shader name passed to the compiler keeps its leading '/' (`Shaders.NameOfPath`).
- The extension is taken after the last '.' of the whole path, even when that '.' lies in a directory name (`Shaders.ExtensionOf`).
