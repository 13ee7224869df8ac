# NativeActivityDemo core in Dafny

A model of the native core of the NativeActivityDemo Android app, with proofs about it. The core has four parts:

- **ObjModel** (module `View`). A mesh loaded from an OBJ asset. Its constructor flattens the parsed `ObjData` into four upload buffers: positions, position indices, texture coordinates and normals. It then takes over the sparse height map and, if asked, requests a fill over the bounding box's grid rectangle. `getMapHeight` and `getMapNormal` answer "terrain height / normal at world (x, z)":
  - a zero x or z scale is guarded;
  - the coordinate is divided by the scale and multiplied by the sample factor;
  - the result is truncated to an `int` cell key;
  - the two-level map is probed without inserting anything;
  - the stored sample is scaled, or the query falls back.
- **ObjData** (module `ObjHelper`). The reader's output container. Its constructor pushes an index-0 sentinel into each attribute sequence, because OBJ indices are 1-based, and starts the bounding box at the origin. `ObjData.Valid` is the layout the consuming code relies on: groups of 3/3/2 floats, sentinels in place, one index triple per face corner.
- **TextureUtils**. The built-in 3x3 RGBA table, and `loadPng`'s row flip. `loadPng` copies source row `r` to destination row `h-1-r` of a `w*h*4` byte buffer computed in `uint32_t`. The static texture id and the guard in `deleteSimpleTexture` are also modelled.
- **GLESEngine**. The EGL config choice: the first config with 8-bit RGBA and 16-bit depth, else config 0. The enlarged square viewport, computed with C's truncating integer division. The global `engine` record, driven by init, refresh and destroy.

Module `CNumerics` writes out the C arithmetic the model needs: the `(int)` cast of a float (truncation toward zero, without the `int` range limit), C's `/` on integers (truncation toward zero, where Dafny's `/` is Euclidean) and unsigned 32-bit values. Floats are `real`. Foreign calls are parameters of the operations that make them:

- EGL and GL results;
- `glm::rotate`;
- `Shape::getScale`, `Shape::getRotate` and `Shape::getMapHeight`;
- `CoordinatesUtils::insertLinearValue`;
- the decoded PNG.

The cell key is `(int)(coord / scale * heightMapSampleFactor)`. It truncates toward zero rather than flooring, so cell 0 covers the open interval (-1, 1) of scaled coordinates.

## Model

| member | source | states |
|---|---|---|
| CNumerics.TruncToInt | app/src/main/cpp/view/ObjModel.cpp:159-160 | the `(int)` cast lands within 1 of its argument on the side of zero: below it for non-negative values, above it for negative ones |
| CNumerics.TruncVersusFloor | app/src/main/cpp/view/ObjModel.cpp:159-160 | the cast equals `Floor` on non-negative values and on negative integers, and is `Floor + 1` on negative non-integers |
| CNumerics.TruncNearZero | app/src/main/cpp/view/ObjModel.cpp:159-160 | every value strictly between -1 and 1 casts to 0 |
| CNumerics.TruncScaledMonotone | app/src/main/cpp/view/ObjModel.cpp:110-114 | scaling by a positive factor and then casting preserves order |
| CNumerics.CDiv | app/src/main/cpp/gles/GLESEngine.c:155-159 | C's integer quotient leaves a remainder with the dividend's sign and smaller than the divisor in magnitude |
| ObjHelper.GridCell | app/src/main/cpp/view/ObjModel.cpp:111-114 | the grid cell `(int)(v * heightMapSampleFactor)` of a coordinate; its meaning is given by `TruncToInt` and `GridCellMonotone` |
| ObjHelper.GridCellMonotone | app/src/main/cpp/view/ObjModel.cpp:111-114 | a larger coordinate never gets a smaller grid cell |
| ObjHelper.ObjData.Valid | app/src/main/cpp/utils/ObjHelper.h:18-38 | the container layout the consuming code relies on: a three-component bounding box; 3/3/2 float groupings; the index-0 sentinels; one triple per face corner |
| ObjHelper.ObjData.constructor | app/src/main/cpp/utils/ObjHelper.h:16-38 | a fresh container: bounding box at (0,0,0); `vertices` and `normals` are `[0,0,0]`; `texCoords` is `[0,0]`; no index tuples; an empty height map; and `Valid` holds |
| ObjHelper.ObjData.VertexCount | app/src/main/cpp/utils/ObjHelper.h:21-30 | in a valid container the positions are whole triples, at least one of them (the sentinel) |
| ObjHelper.PositionInRange | app/src/main/cpp/utils/ObjHelper.h:27-30 | a 1-based OBJ index `i` has its position inside `vertices` exactly when `i` is below the number of positions, sentinel included |
| View.GuardScale | app/src/main/cpp/view/ObjModel.cpp:152-157 | the guarded scale is never zero; a nonzero scale is kept, and zero becomes 1/1000000 |
| View.QueryKey | app/src/main/cpp/view/ObjModel.cpp:159-160 | the key of a coordinate after the zero guard. Under a unit scale it is the coordinate's own grid cell; under a zero scale it is the cell of the coordinate times a million |
| View.Cell | app/src/main/cpp/view/ObjModel.cpp:161-162 | the lookup finds a sample exactly when both key levels are present, and then it is the stored one; nothing is inserted, because a function cannot change the map |
| View.Compensate | app/src/main/cpp/view/ObjModel.cpp:179-181 | the compensated normal, multiplied back componentwise by the scale, is the stored normal |
| View.RotateXYZ | app/src/main/cpp/view/ObjModel.cpp:185-187 | the three `glm::rotate` calls, applied about X, then Y, then Z by the three angles |
| View.HeightMapBounds | app/src/main/cpp/view/ObjModel.cpp:110-114 | the four fill bounds: the grid cells of min x, min z, max x and max z. `BoundsCoverBox` states what they cover |
| View.FirstEntries | app/src/main/cpp/view/ObjModel.cpp:60-67 | the index buffer has one entry per index tuple |
| View.FirstEntriesAt | app/src/main/cpp/view/ObjModel.cpp:64-67 | entry `k` of the index buffer is element 0 of tuple `k` |
| View.CopyFloats | app/src/main/cpp/view/ObjModel.cpp:48-53 | the buffer the pointer-walk loop fills equals the source sequence, element for element |
| View.CopyIndices | app/src/main/cpp/view/ObjModel.cpp:62-67 | the index buffer holds the first entry of each tuple, in order |
| View.ObjModel.constructor | app/src/main/cpp/view/ObjModel.cpp:17-115 | if `fd <= 0`, nothing is uploaded and the map stays empty. Otherwise the vertex, texcoord and normal buffers equal the container's sequences, sentinels included; the index buffer holds the first entries; `indexCount` is the tuple count modulo 2^32; and the map is the container's map, passed through the fill (bounded by the truncated scaled min/max x and z) exactly when `needGenHeightMap` holds |
| View.ObjModel.GetMapHeight | app/src/main/cpp/view/ObjModel.cpp:149-165 | the height query. Its behaviour is stated by `ZeroScaleIsSubstituted`, `HeightLookup`, `HeightOutsideMapIsZero`, `HeightUnderIdentityScale` and `HeightFollowsHorizontalScale` |
| View.ObjModel.GetMapNormal | app/src/main/cpp/view/ObjModel.cpp:167-189 | the normal query, as the new value of `outVec3`. Its behaviour is stated by `ZeroScaleIsSubstituted`, `NormalAbsentLeavesOutputUnchanged`, `NormalPresent` and `NormalUnderIdentityTransform` |
| View.ZeroScaleIsSubstituted | app/src/main/cpp/view/ObjModel.cpp:149-177 | for both queries, a zero x or z scale gives the same answer as a scale of 1/1000000 |
| View.ZeroScaleKeyLeavesIntRange | app/src/main/cpp/view/ObjModel.cpp:152-159 | with a zero x scale and factor 10, the point x = 300 has key 3000000000, beyond the range of C's `int` |
| View.SmallCoordinatesShareCellZero | app/src/main/cpp/view/ObjModel.cpp:159-160 | small coordinates of either sign share cell key 0 |
| View.HeightLookup | app/src/main/cpp/view/ObjModel.cpp:161-164 | a present cell answers its stored height times the y scale; an absent one answers the base-class fallback at the cell keys |
| View.HeightOutsideMapIsZero | app/src/main/cpp/view/ObjModel.cpp:161-164 | with the "always 0" fallback, a query whose x key is absent answers 0 |
| View.HeightUnderIdentityScale | app/src/main/cpp/view/ObjModel.cpp:149-163 | under the identity scale, a present cell `((int)(x*f), (int)(z*f))` answers its stored height unchanged |
| View.HeightFollowsHorizontalScale | app/src/main/cpp/view/ObjModel.cpp:159-162 | stretching the object horizontally, and querying at the correspondingly stretched point, gives the unstretched answer |
| View.NormalAbsentLeavesOutputUnchanged | app/src/main/cpp/view/ObjModel.cpp:178-188 | when the cell is absent, `outVec3` keeps its old value |
| View.NormalPresent | app/src/main/cpp/view/ObjModel.cpp:176-187 | when the cell is present: the result ignores the old `outVec3`; it is finite exactly when the y scale is nonzero; and then it is the stored normal divided componentwise by the guarded scale, rotated about X, then Y, then Z |
| View.NormalUnderIdentityTransform | app/src/main/cpp/view/ObjModel.cpp:176-187 | under the identity scale and identity rotations, a present cell yields its stored normal |
| View.BoundsCoverBox | app/src/main/cpp/view/ObjModel.cpp:100-114 | every point of the bounding box has its x and z cells inside the rectangle handed to the fill |
| View.FreshBoundsAreOrigin | app/src/main/cpp/view/ObjModel.cpp:109-114 | a bounding box still at the origin asks the fill for the single cell (0, 0) |
| TextureUtils.Pixels | app/src/main/cpp/texture/TextureUtils.cpp:46-58 | the table holds 9 RGBA pixels (36 bytes), and every alpha byte is 255 |
| TextureUtils.BufferSize | app/src/main/cpp/texture/TextureUtils.cpp:32 | the `malloc` size: `w*h*4` whenever that fits in 32 bits, and always a multiple of 4 |
| TextureUtils.CopiesInBounds | app/src/main/cpp/texture/TextureUtils.cpp:32-37 | all `h` row copies of `rowbytes` bytes fit in the allocated buffer. `InBoundsExactly` says when |
| TextureUtils.RowStartIsProduct | app/src/main/cpp/texture/TextureUtils.cpp:37 | destination row `d` starts at byte `d * rowbytes` |
| TextureUtils.DestRowIsBijection | app/src/main/cpp/texture/TextureUtils.cpp:35-38 | `r -> h-1-r` maps `[0, h)` onto itself and is its own inverse, so each destination row receives exactly one source row |
| TextureUtils.RowInside | app/src/main/cpp/texture/TextureUtils.cpp:35-37 | every row below `h` ends before row `h` would start |
| TextureUtils.InBoundsExactly | app/src/main/cpp/texture/TextureUtils.cpp:32-37 | when `w*h*4` does not wrap, all copies stay inside the buffer exactly when the image is empty or `rowbytes <= 4*w` |
| TextureUtils.BufferSizeWraps | app/src/main/cpp/texture/TextureUtils.cpp:32 | the `uint32_t` size product wraps: for example, a 32768 x 32768 image gets a 0-byte buffer |
| TextureUtils.FlippedInto | app/src/main/cpp/texture/TextureUtils.cpp:35-38 | the buffer holds the rows bottom-up: destination row `h-1-r` is source row `r`, and destination row `d` is source row `h-1-d`, all inside the buffer |
| TextureUtils.FlipReadsBothWays | app/src/main/cpp/texture/TextureUtils.cpp:35-38 | a buffer holding every source row at its flipped place, with every row inside it, also holds the flipped source row at each destination row, because the row flip is its own inverse |
| TextureUtils.WrapCanStayInBounds | app/src/main/cpp/texture/TextureUtils.cpp:32-37 | a wrapped size is not always an overrun: a 40000 x 40000 file with one byte per pixel gets 2105032704 bytes, and all its rows fit |
| TextureUtils.CopyRow | app/src/main/cpp/texture/TextureUtils.cpp:37 | `memcpy` writes the row at the offset and leaves every other byte unchanged |
| TextureUtils.LoadPng | app/src/main/cpp/texture/TextureUtils.cpp:13-38 | if the file fails to open, `w`, `h` and `image` keep their values. Otherwise `w` and `h` are the file's dimensions, and the buffer has the wrapped `w*h*4` size with destination row `h-1-r` equal to source row `r`, in both directions |
| TextureUtils.TextureState.constructor | app/src/main/cpp/texture/TextureUtils.cpp:60 | the static texture id starts at 0 |
| TextureUtils.TextureState.LoadSimpleTexture | app/src/main/cpp/texture/TextureUtils.cpp:62-79 | the generated name is stored and returned. If the file fails to open, the dimensions and image passed on are the locals' untouched values. Otherwise they are `loadPng`'s: the file's dimensions, and a buffer of the wrapped `w*h*4` size holding the flipped rows, in both directions |
| TextureUtils.TextureState.DeleteSimpleTexture | app/src/main/cpp/texture/TextureUtils.cpp:81-85 | the texture is deleted exactly when the id is nonzero, and the id is not reset |
| GLESEngine.Matches | app/src/main/cpp/gles/GLESEngine.c:68-73 | the loop's test: all five attribute queries succeed, and report r = g = b = a = 8 and d = 16 |
| GLESEngine.FirstMatchFrom | app/src/main/cpp/gles/GLESEngine.c:65-79 | the scan from `i` stops at an index between `i` and the number of configs |
| GLESEngine.FirstMatchFromIsFirst | app/src/main/cpp/gles/GLESEngine.c:65-79 | the scan stops at the first matching config, and runs off the end exactly when nothing from `i` on matches |
| GLESEngine.ChosenConfig | app/src/main/cpp/gles/GLESEngine.c:63-82 | the chosen index is a valid config index |
| GLESEngine.ChosenConfigIsFirstMatch | app/src/main/cpp/gles/GLESEngine.c:63-82 | the choice matches exactly when some config matches; no earlier config matches; and with no match it is config 0 |
| GLESEngine.ChooseConfig | app/src/main/cpp/gles/GLESEngine.c:63-82 | the loop with `break` and the `i == numConfigs` fallback computes that choice |
| GLESEngine.ViewportFor | app/src/main/cpp/gles/GLESEngine.c:154-160 | the viewport's width equals its height |
| GLESEngine.ViewportCoversWindow | app/src/main/cpp/gles/GLESEngine.c:145-160 | for a window of non-negative size, the square is 4/3 of the longer side, rounded down, and covers the whole window; in portrait it ends exactly at the window's top edge |
| GLESEngine.PortraitExample | app/src/main/cpp/gles/GLESEngine.c:154-156 | a 1080 x 1920 window gets the viewport (-740, -640, 2560, 2560) |
| GLESEngine.TruncationMatters | app/src/main/cpp/gles/GLESEngine.c:155 | for a 1 x 2 window, C's division gives x offset 0, where Euclidean division would give -1 |
| GLESEngine.AfterInit | app/src/main/cpp/gles/GLESEngine.c:108-112 | the record a successful init leaves: the display, surface, context and sizes it was given, and the viewport size of `ViewportFor` (lines 156 and 159) |
| GLESEngine.AfterDestroy | app/src/main/cpp/gles/GLESEngine.c:190-194 | the record destroy leaves: no handles, zero width and height, and the old viewport size. `DestroyIdempotent` and `InitThenDestroy` state its properties |
| GLESEngine.Swaps | app/src/main/cpp/gles/GLESEngine.c:169-173 | refresh swaps buffers exactly when a display is set |
| GLESEngine.TeardownCalls | app/src/main/cpp/gles/GLESEngine.c:180-189 | the EGL calls destroy makes, in order. `TeardownOrder` states their shape |
| GLESEngine.TeardownOrder | app/src/main/cpp/gles/GLESEngine.c:179-189 | tear-down talks to EGL only when there is a display. It releases the current context first and terminates the display last; it destroys exactly the context and surface that are set; and every call names the stored display |
| GLESEngine.DestroyIdempotent | app/src/main/cpp/gles/GLESEngine.c:179-195 | destroying twice leaves the same record as destroying once, and the second destroy makes no EGL call |
| GLESEngine.DestroyThenRefresh | app/src/main/cpp/gles/GLESEngine.c:168-195 | after destroy, refresh swaps nothing, and the viewport size survives |
| GLESEngine.InitThenDestroy | app/src/main/cpp/gles/GLESEngine.c:154-195 | destroy after a successful init restores the initial record, except that the viewport size stays the one init computed |
| GLESEngine.Engine.constructor | app/src/main/cpp/gles/GLESEngine.c:19-26 | the record starts with no display, surface or context, and all sizes 0 |
| GLESEngine.Engine.Init | app/src/main/cpp/gles/GLESEngine.c:31-162 | if `eglMakeCurrent` fails, init returns -1 and the record is unchanged. Otherwise it stores the display, the surface and context created for the chosen config, `w`, `h` and the viewport size, and returns 0 |
| GLESEngine.Engine.Refresh | app/src/main/cpp/gles/GLESEngine.c:168-174 | buffers are swapped exactly when a display is set |
| GLESEngine.Engine.Destroy | app/src/main/cpp/gles/GLESEngine.c:179-195 | destroy makes the tear-down calls of the old record, resets the handles and sizes, and keeps the viewport size |
| GLESEngine.Engine.GetWidth | app/src/main/cpp/gles/GLESEngine.c:197-199 | returns the stored width |
| GLESEngine.Engine.GetHeight | app/src/main/cpp/gles/GLESEngine.c:201-203 | returns the stored height |
| GLESEngine.Engine.GetViewportSize | app/src/main/cpp/gles/GLESEngine.c:205-207 | returns the stored viewport size |

## Left out

- `ObjHelper::readObjFile`, `CoordinatesUtils::insertLinearValue` and the `Shape` base class are not part of this model, because their sources are not part of it either. Their effects enter as follows:
  - the reader's output is the `ObjData` handed to the constructor, assumed to satisfy `ObjData.Valid`;
  - the fill is an uninterpreted function of the map and the four bounds;
  - `getScale`, `getRotate` and `Shape::getMapHeight` are parameters.
- View.ObjModel.constructor: takes the asset fd and the parsed container, not the asset names. It does not model the following: `fdopen`, `TextureUtils::loadPNGTexture` (the object's `textureId` comes from it), the GL buffer and attribute calls, `initWrapBox`, or the light uniforms.
- View.FirstEntries: requires every tuple to be non-empty. The source's `value.at(0)` would throw on an empty tuple, but under `ObjData.Valid` every tuple has three entries, so this cannot happen.
- `heightMapSampleFactor`: its value is set in `ObjHelper.cpp`, which is not part of this model. It is a positive-integer parameter, following the header's note that it must be a whole number. Its declared type is `float`.
- CNumerics.TruncToInt: keeps the exact truncation as an unbounded integer. In C the `(int)` conversion is undefined when the truncated value lies outside [-2^31, 2^31), and the map's keys are `int`. A query with a zero x or z scale reaches that range once |coordinate| >= 2^31 / (10^6 * heightMapSampleFactor); `ZeroScaleKeyLeavesIntRange` shows one such point.
- ObjHelper.ObjData.Valid: the sentinel floats are assumed to still be 0 after `readObjFile`, which is not part of this model. The constructor puts them there, and the reader is assumed only to append. The copy loops do not depend on their values.
- Floating point: `real` replaces `GLfloat`, so IEEE rounding is not modelled. Neither is the fact that `1.0f / 1000000.0f` is not exactly 10^-6.
- View.ObjModel.GetMapNormal: a zero y scale divides by zero. The model reports only `NonFinite`, not the exact infinities or NaN that IEEE arithmetic would produce.
- `glm::rotate` and trigonometry: rotation is uninterpreted, and only the X, Y, Z call order is modelled.
- TextureUtils.LoadPng: requires that every row copy stays inside the buffer. The source writes past the buffer when `rowbytes > 4*w` (for example, a 16-bit RGBA file). It can also write past the buffer when `w*h*4` wraps modulo 2^32, though not always (`WrapCanStayInBounds`). That is undefined behaviour in C and is not modelled. `InBoundsExactly` decides the non-wrapping case, and `BufferSizeWraps` shows the wrap is reachable.
- Allocation failure: the source never checks `malloc`'s result (`TextureUtils.cpp:32`; `ObjModel.cpp:49, 63, 74, 87`). Dafny's `new` cannot fail, so `TextureUtils.LoadPng`'s `image != null` and the copy methods' fresh buffers promise more than the source does, and an out-of-memory `NULL` is not modelled.
- TextureUtils.LoadPng: libpng decoding, `fopen` and `png_destroy_read_struct` are not modelled. A decoded file is a value holding its dimensions, `rowbytes` and rows.
- TextureUtils.TextureState.LoadSimpleTexture: states only what reaches `glTexImage2D`. The GL texture-parameter and bind calls are not modelled. Neither is the `free` of an indeterminate pointer after a failed open.
- GLESEngine.ViewportFor: computes in unbounded `int`. The `int32_t` overflow of `h*4` or `w*4`, for sides of 2^29 pixels or more, is not modelled. The engine's sizes are likewise `int`, not `int32_t`.
- GLESEngine.Engine.Init: the following are not modelled:
  - the `eglGetDisplay` result: only as an unconstrained parameter, `eglDisplay`;
  - the results of `eglInitialize` and the `EGL_NATIVE_VISUAL_ID` query;
  - the OpenGL info logging loop and the `glEnable`, blend and depth set-up;
  - `app_log` output, and the `glViewport` call itself. The rectangle it would receive is `ViewportFor`.
- GLESEngine.Engine.Refresh and GLESEngine.Engine.Destroy: the EGL calls are recorded, not performed. Their results and the vSync blocking are not modelled.
- `Cube.cpp`: shader text, constant geometry and GL set-up are outside the modelled core.
- `ObjModel.h`: declarations only. It is out of step with `ObjModel.cpp`. The model takes its field initialiser `indexCount = 0`.
