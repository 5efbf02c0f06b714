# gk2025 scene core in Dafny

gk2025 is a small OpenGL scene: textured pyramids on a sand plane, lit by a sun
that sweeps across the sky. The number keys and L select one of four lighting
modes. This project models the parts of `main.cpp` that are pure bookkeeping and
proves what the renderer relies on:

- **`generateSphere`** (module `Sphere`) builds the UV sphere the sun is drawn
  with. It writes an interleaved vertex buffer of eight floats per vertex
  (position, normal, texture coordinate) over `(stackCount + 1) * (sectorCount + 1)`
  vertices, and a counter-clockwise index buffer.
  - The model has a functional reference (`SphereVertices`, `SphereIndices`) and
    `generateSphere`'s nested loops (`EmitVertices`, `EmitIndices`), and proves the loops
    compute the reference.
  - The counts are `generateSphere`'s `int` parameters, so the loop and index
    arithmetic is modelled for zero and negative counts too.
  - Texture coordinates use an IEEE-style `Float` (module `Floats`), so the `0/0`
    of a zero count is a NaN rather than a precondition.
  - Positions and normals come from `cosf`/`sinf` and enter the model as an
    opaque `surface` function returning `Float`s, so they may be non-finite, as
    they are in `main.cpp` for a zero count or a zero radius.
- **`key_callback`** (module `Lighting`) is the lighting-mode state machine.
  - It starts in mode 3. Keys 1-4 select modes 0-3.
  - L advances the mode with C++'s truncating `%`, which is modelled explicitly.
  - Any other key or action leaves the mode unchanged.
- **The sun path** (module `SunPath`) is computed each frame:
  - `normalizedTime = fmod(t * 0.05, 2)`, with C `fmod`'s truncated quotient;
  - the ping-pong `pathParam`;
  - `lightX = -R + 2R * pathParam` with `R = 5`.

  `lightZ` is the constant `sunPathDepth` and needs no model.
- **The static tables** (module `SceneTables`) are `pyramidVertices`,
  `pyramidIndices`, `groundVertices` and `groundIndices`.
  - Each vertex array is written as one record per 11-float row. `Encode` lays
    the records out as the flat array, and `DecodeEncode` proves that the
    attribute pointers read the rows back.
  - The same module holds the draw counts 18 and 6, and the per-instance arrays
    the pyramid loop indexes.
- **Element buffers drawn with `GL_TRIANGLES`** (module `Mesh`) are shared by all
  of the above: `Flatten` turns a triangle list into a flat index buffer, and
  `ValidTriangleDraw` says a draw call stays in range.

## Model

| member | source | states |
|---|---|---|
| `Floats.Quotient` | main.cpp:64-65 | `(float)a / b` is finite exactly when `b != 0`, then times `b` gives back `a`; `0/0` is NaN and `a/0` an infinity with the sign of `a` |
| `Floats.QuotientInUnitRange` | main.cpp:63-65 | a count divided by a larger positive count lies in [0, 1], is 0 at 0 and 1 at the divisor |
| `Mesh.FlattenTriangleAt` | main.cpp:84-94 | pushing three indices per triangle and reading the buffer three at a time gives every triangle back |
| `Mesh.WholeBufferDraw` | main.cpp:399 | drawing a whole element buffer reads only indices below the vertex count, in whole triangles, exactly when every index is below the vertex count and the length is a multiple of 3 (both directions); the whole-triangle part is this model's demand, since OpenGL would skip a trailing partial triangle |
| `Sphere.VertexFloats` | main.cpp:51-67 | each vertex contributes exactly eight floats |
| `Sphere.VertexCount` | main.cpp:36-44 | the vertex loops visit `stackCount + 1` rows of `sectorCount + 1` vertices, none for a negative count |
| `Sphere.SphereVertices` | main.cpp:36-69 | the reference vertex buffer: every row `0..stackCount` of `VertexFloats`, in emission order |
| `Sphere.RowFloats` | main.cpp:44-68 | a stack row of `cols` vertices contributes `8 * cols` floats |
| `Sphere.MeshFloatsLength` | main.cpp:36-69 | `rows` stack rows contribute `rows * 8 * (sectorCount + 1)` floats |
| `Sphere.SphereVerticesLength` | main.cpp:36-69 | the vertex buffer holds `8 * (stackCount + 1) * (sectorCount + 1)` floats (no loop iterations for a negative count) |
| `Sphere.SphereVertexLayout` | main.cpp:36-68 | vertex `(i, j)` sits at floats `8v .. 8v + 8` with `v = i * (sectorCount + 1) + j`, where the sun's stride-8 attribute pointers read it |
| `Sphere.TextureCoordinates` | main.cpp:63-67 | `s` and `t` are finite and in [0, 1]; `s = 0` exactly at the first vertex of a row and `s = 1` exactly at the last (the seam duplicate); `t = 0` exactly on the top row and `t = 1` exactly on the bottom row |
| `Sphere.DegenerateTextureCoordinates` | main.cpp:63-65 | with no sectors every vertex's `s` is `0/0`, a NaN; with no stacks every vertex's `t` is |
| `Sphere.CellTriangles` | main.cpp:82-95 | a cell emits two triangles in an interior row, one in the top or bottom row, none when the sphere has a single stack |
| `Sphere.CellTrianglesValid` | main.cpp:80-95 | both triangles of a cell have three distinct corners, each below the vertex count: `k2` lies a whole row past `k1`, and `k2 + 1` is still on the next stack row |
| `Sphere.RowTrianglesValid` | main.cpp:78-96 | every triangle of a stack row has distinct corners inside the vertex buffer |
| `Sphere.MeshTrianglesValid` | main.cpp:73-97 | every triangle of the first `rows` stack rows has distinct corners inside the vertex buffer |
| `Sphere.SphereIndices` | main.cpp:72-97 | the reference index buffer: the triangles of rows `0..stackCount - 1`, flattened in emission order |
| `Sphere.IndexCount` | main.cpp:72-97 | the number of indices the loops emit: `6 * sectorCount * (stackCount - 1)` for positive counts, none otherwise |
| `Sphere.RowTrianglesLength` | main.cpp:78-96 | a row emits two triangles per sector, one on the top and bottom rows, none when those coincide |
| `Sphere.UpperRowsCount` | main.cpp:73-97 | the rows above the bottom one emit `(2 * rows - 1) * sectorCount` triangles |
| `Sphere.SphereTriangleCount` | main.cpp:73-97 | for positive counts the sphere has `2 * (stackCount - 1) * sectorCount` triangles |
| `Sphere.ZeroSectorRows` | main.cpp:78 | with no positive sector count, no triangle is emitted |
| `Sphere.SphereIndexCount` | main.cpp:73-97 | the index buffer holds `6 * sectorCount * (stackCount - 1)` indices for positive counts and none otherwise |
| `Sphere.SphereIndicesValid` | main.cpp:75-95 | every index is below the vertex count and every triangle has three distinct corners |
| `Sphere.GenerateSphere` | main.cpp:22-98 | the outputs depend only on the counts and the surface, not on what the vectors held; they have the lengths above and every index is in range |
| `Sphere.EmitVertices` | main.cpp:36-69 | the vertex loops build exactly the reference vertex buffer |
| `Sphere.EmitIndices` | main.cpp:72-97 | the index loops, with `k1` and `k2` stepping along adjacent rows, build exactly the reference index buffer |
| `Sphere.EmitRow` | main.cpp:75-96 | the inner index loop for stack `i`, with `k1 = i * (sectorCount + 1)` and `k2 = k1 + sectorCount + 1` stepping together, builds exactly the reference triangles of that row |
| `Sphere.CellStep` | main.cpp:82-95 | one inner-loop pass appends `k1, k2, k1+1` unless on the top row, then `k1+1, k2, k2+1` unless on the bottom row, and nothing else |
| `Sphere.SphereDrawValid` | main.cpp:399 | drawing `sphereIndices.size()` indices reads whole triangles of existing vertices |
| `Sphere.SunCounts` | main.cpp:257 | 36 sectors and 18 stacks give 703 vertices and 3672 indices |
| `Sphere.SunSphere` | main.cpp:257-269 | the sun's buffers hold 5624 floats and 3672 indices, both non-empty as `&v[0]` needs, and the sun's draw is in range |
| `Lighting.CRemainder` | main.cpp:113 | C++ `%` has the sign of the dividend and is smaller in magnitude than the divisor |
| `Lighting.CDivision` | main.cpp:113 | C++ `/` and `%` together give back the dividend: `a == b * (a / b) + a % b` |
| `Lighting.NextMode` | main.cpp:113 | `(mode + 1) % 4` moves a valid mode one step along the cycle 0, 1, 2, 3, 0 |
| `Lighting.KeyCallback` | main.cpp:103-120 | a valid mode stays valid; a non-press or another key changes nothing; a press of key `1 + m` selects mode `m`; L always moves to a different mode |
| `Lighting.ReleaseAndRepeatIgnored` | main.cpp:105 | a release or a key repeat leaves the mode unchanged, whatever the key |
| `Lighting.Run` | main.cpp:101-120 | the mode after `key_callback` has been called once per event, in order |
| `Lighting.RunKeepsValid` | main.cpp:103-120 | any event sequence from a valid mode leaves a valid mode |
| `Lighting.ReachableModesValid` | main.cpp:101 | from the initial mode 3, the mode handed to the shader is always in 0..3 |
| `Lighting.IneffectiveEventsIgnored` | main.cpp:105-119 | dropping every event that is not a press of 1-4 or L leaves the final mode unchanged |
| `Lighting.NumberKeySelects` | main.cpp:107-110 | the last press of key `1 + m` decides the mode whatever came before |
| `Lighting.LCycles` | main.cpp:111-118 | `n` presses of L from mode `m` give `(m + n) % 4`, so every mode is reachable and four presses return to the start |
| `SunPath.Trunc` | main.cpp:331 | rounding toward zero stays within one of its argument, on the side of zero |
| `SunPath.FMod` | main.cpp:331 | `fmod(x, y)` removes a whole number of `y`s and keeps the sign of `x`: in `[0, y)` for `x >= 0`, in `(-y, 0]` otherwise |
| `SunPath.NormalizedTime` | main.cpp:331 | `fmod(currentTime * 0.05, 2)`, in [0, 2) for a non-negative clock |
| `SunPath.PathParam` | main.cpp:332-338 | `pathParam` lies in [0, 1] for every `normalizedTime` in [0, 2) |
| `SunPath.LightX` | main.cpp:341 | `-R + 2R * pathParam` |
| `SunPath.SunLightX` | main.cpp:331-341 | the sun's `lightX` for a clock reading, with `R = sunPathRadius = 5` |
| `SunPath.PathParamIsTriangleWave` | main.cpp:332-338 | on one period `pathParam` is the triangle wave `1 - Abs(t - 1)` |
| `SunPath.PathParamSymmetric` | main.cpp:336-338 | the second half of the period retraces the first: `pathParam(t) = pathParam(2 - t)` |
| `SunPath.PathParamMonotone` | main.cpp:332-338 | `pathParam` rises on [0, 1] and falls on [1, 2) |
| `SunPath.PathParamOnto` | main.cpp:332-338 | every parameter in [0, 1] is reached within one period |
| `SunPath.LightXRange` | main.cpp:341 | `lightX` stays in `[-R, R]` and is `-R` at parameter 0 and `R` at parameter 1 |
| `SunPath.LightXRoundTrip` | main.cpp:341 | for a non-zero radius the parameter can be recovered from `lightX` |
| `SunPath.SunLightXRange` | main.cpp:331-341 | for every clock reading, `normalizedTime` is in [0, 2) and the sun's `lightX` is in [-5, 5] |
| `SunPath.FModPeriodic` | main.cpp:331 | folding into [0, 2) ignores a whole period |
| `SunPath.SunLightXPeriodic` | main.cpp:331-341 | the sun's `lightX` repeats every 40 seconds, `2 / dayNightCycleSpeed` |
| `SceneTables.EncodeVertex` | main.cpp:235-238 | a row is 11 floats, and each attribute pointer of the shared layout finds its attribute of the row (location 0 position, 1 colour, 2 texture coordinate, 3 normal) at its offset |
| `SceneTables.ReadAttribute` | main.cpp:235-238 | an attribute pointer reads `size` floats, `offset` floats into the vertex's 11-float stride |
| `SceneTables.Encode` | main.cpp:123-144 | `n` rows make a flat array of `11 * n` floats |
| `SceneTables.DecodeEncode` | main.cpp:235-238 | reading vertex `k` of the flat array through the four attribute pointers of the layout gives back row `k` |
| `SceneTables.LayoutTilesStride` | main.cpp:247-250 | the four attributes are contiguous, in location order, and fill the 11-float stride exactly |
| `SceneTables.TablesDecode` | main.cpp:231-250 | both vertex buffers, read with the shared layout, give back the pyramid and ground rows |
| `SceneTables.InterleavedLayout` | main.cpp:235-238 | the four `LinkAttrib` calls as (location, size, offset): (0, 3, 0), (1, 3, 3), (2, 2, 6), (3, 3, 8) |
| `SceneTables.PyramidRows` | main.cpp:123-145 | `pyramidVertices`, one record per 11-float row |
| `SceneTables.PyramidIndices` | main.cpp:147-154 | `pyramidIndices` |
| `SceneTables.GroundRows` | main.cpp:157-163 | `groundVertices`, one record per 11-float row |
| `SceneTables.GroundIndices` | main.cpp:164-167 | `groundIndices` |
| `SceneTables.PyramidDrawCount` | main.cpp:384 | the pyramid draw count `sizeof(pyramidIndices) / sizeof(GLuint)` |
| `SceneTables.GroundDrawCount` | main.cpp:367 | the literal ground draw count 6 |
| `SceneTables.NumPyramids` | main.cpp:294 | `numPyramids`, the number of entries of `pyramidPositions` |
| `SceneTables.PyramidTablesValid` | main.cpp:123-153 | 16 vertices in 176 floats, 18 indices, each below 16 |
| `SceneTables.PyramidDrawValid` | main.cpp:384 | the count `sizeof(pyramidIndices) / sizeof(GLuint)` is 18, and drawing it reads six whole triangles of existing vertices |
| `SceneTables.GroundTablesValid` | main.cpp:156-167 | 4 vertices in 44 floats, 6 indices, each below 4 |
| `SceneTables.GroundDrawValid` | main.cpp:367 | the literal count 6 equals the ground index array's length, and the draw is in range |
| `SceneTables.TrianglesNonDegenerate` | main.cpp:147-167 | every pyramid and ground triangle has three distinct corners |
| `SceneTables.EveryVertexUsed` | main.cpp:147-167 | every vertex row of both tables is a corner of some triangle |
| `SceneTables.FacesAgreeWithNormals` | main.cpp:123-167 | each triangle's corners share one normal, and the corners wind counter-clockwise seen from the side that normal points to |
| `SceneTables.InstanceArraysAgree` | main.cpp:271-294 | `numPyramids` is 4, the scale and rotation arrays have that many entries, and every scale is positive, so the instance loop stays in bounds |

## Left out

- Sphere positions and normals: the `cosf`/`sinf` computations (main.cpp:29-58) are
  not modelled. They enter as the opaque `surface` parameter of `Float`s, so nothing
  is stated about the vertices lying on a sphere of radius `radius`, nor about
  them being NaN when a zero count makes `sectorStep` or `stackStep` infinite
  (main.cpp:32-33, 38, 46) or a zero radius makes `lengthInv` infinite (main.cpp:29).
- Single-precision rounding: every finite float is an exact real.
- `GLuint` conversion and `int` overflow of `k1`/`k2` are not modelled. They do not
  arise for the sun's 36 x 18 sphere.
- `SunPath.FMod`: modelled for positive divisors only, because both `fmod` calls
  divide by positive constants.
- `SunPath.PathParam`: its range is stated only for `normalizedTime` in [0, 2), the
  range `fmod` produces for the non-negative clock; `SunLightXRange` composes the two.
- The unused angle-based `lightX`/`lightY` (main.cpp:320-327) are overwritten before
  use and are not modelled. The sinusoidal `lightY` (main.cpp:345-346) needs `sin`
  and is not modelled.
- The console messages of `key_callback` are output only. The unused `window`,
  `scancode` and `mods` arguments are dropped.
- The GLFW constants (`GLFW_PRESS = 1`, `GLFW_RELEASE = 0`, `GLFW_REPEAT = 2`,
  `GLFW_KEY_1..4 = 49..52`, `GLFW_KEY_L = 76`) are the values glfw3.h defines. That
  header is not part of this model.
- VAO binding state is assumed, not modelled: the draw lemmas prove only that the
  index data is in range for the vertex array it was written for. In particular the
  ground's element buffer is created before `groundVAO.Bind()` (main.cpp:242-245),
  and whether `groundVAO` records it depends on the `EBO` class, which is not part
  of this model.
- Not modelled: window and context setup, shader compilation, textures, the
  skybox, the cactus, the camera, the VAO/VBO/EBO wrappers, the model matrices of
  the pyramid instances, and the frame loop's GL calls. These are I/O and calls
  into libraries.
