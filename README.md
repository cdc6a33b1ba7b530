# iSyntax tile source, modelled in Dafny

This project models the core of `large_image_source_isyntax`, the large_image tile source for
Philips iSyntax whole-slide images. The model covers five parts.

- **`_readXML`** (`xml_scan.dfy`, module `XmlScan`). An iSyntax file starts with an XML document
  whose root is a `DataObject` element. The scanner first probes the first 256 bytes for
  `<DataObject`. It then reads 64 KiB chunks and counts `<DataObject` / `</DataObject` tags until
  the root closes. It caps the length at 100 MiB, re-reads that many bytes, parses them and
  flattens the tree twice: full, and truncated. The chunked loop `ReadXml` is a method over the
  file's bytes and a read cursor. It is proved equal to `ReadXmlSpec`, which runs the same tag
  search over the whole file as one buffer. So chunk boundaries, including ones that cut a tag in
  two, never change the outcome.
- **`philipsTag`** (`philips_tags.dfy`, module `PhilipsTags`). This is the recursive flattening of
  the XML dictionary into one record per DataObject. It follows the Python control flow:
  a lone element counts as a one-element list, and an `Array` that flattens to nothing is skipped.
  The Python local `value` survives from one attribute to the next, so a bare attribute reuses it,
  or raises `UnboundLocalError` when it was never set. The `PMSVR` type tags convert values. The
  string and integer parsing it relies on (`split`, `strip`, `int`) is in `text.dfy` (module
  `Text`).
- **The opening in `__init__`** (`isyntax_source.dfy`, module `IsyntaxSource`, and
  `level_table.dfy`, module `LevelTable`). Opening checks:
  - that the header reads;
  - that the engine's view has `x`, `y` and `component` axes;
  - that the view has 1 to 4 components.

  It then computes the number of 512-pixel tile levels and fills `_levelIdx`: each native level
  with equal x/y steps and a plain component range goes into the slot of its rounded base-2
  step logarithm. A later native level overwrites an earlier one. Slot 0 must end up filled.
  The floating-point logarithms are replaced by their exact integer characterisations.
- **`getTile`** (`tile_compositor.dfy`, module `TileCompositor`). It walks from the requested
  level's slot down to the nearest filled slot, doubling the subsampling scale at each step. It
  trims the pixel box to that native level's step and extent, and sizes the buffer with
  truncating division. It requests the region from the engine and takes every `scale`-th row and
  column.
- **Associated images** (`associated_images.dfy`, module `AssociatedImages`). This part covers the
  names `getAssociatedImagesList` offers and the first-match lookup of `_getAssociatedImage`.

`wrappers.dfy` holds the `Option` and `Result` types, and `numbers.dfy` (module `Numbers`) the byte type
and `Min`/`Max`. All paths in the table below are in
`large_image_source_isyntax/__init__.py`.

## Model

| member | source | states |
|---|---|---|
| XmlScan.Read | large_image_source_isyntax/__init__.py:200 | `fptr.read(n)` returns the next `min(n, remaining)` bytes of the file at the cursor |
| XmlScan.NextTagFacts | large_image_source_isyntax/__init__.py:205-220 | the tag a loop iteration acts on is a whole `<DataObject` / `</DataObject` occurrence with no tag of either kind before it; when there is none, the buffer holds no whole tag |
| XmlScan.TagAtOccurs | large_image_source_isyntax/__init__.py:194-195 | the whole-file tag test recognises exactly the occurrences of the open and close tags |
| XmlScan.TagsDiffer | large_image_source_isyntax/__init__.py:194-195 | no offset starts both an open and a close tag, so the two branches of the loop never compete |
| XmlScan.ScanSkip | large_image_source_isyntax/__init__.py:204-224 | offsets where no tag starts do not change the scan's outcome |
| XmlScan.ScanRestart | large_image_source_isyntax/__init__.py:219-220 | where the previous tag ended matters only through the 12 bytes kept before the end of the file |
| XmlScan.ScanDocument | large_image_source_isyntax/__init__.py:196-227 | the chunked loop's final `xmllen` and `any` equal the whole-file scan's end offset and its "saw an open tag" flag |
| XmlScan.Consume | large_image_source_isyntax/__init__.py:209-215 | dropping the bytes up to a tag's end keeps the buffer equal to the file between the new offset and the read cursor |
| XmlScan.Extend | large_image_source_isyntax/__init__.py:221-224 | appending a chunk keeps the buffer equal to the file between the offset and the advanced cursor |
| XmlScan.LocateTag | large_image_source_isyntax/__init__.py:205-220 | one iteration's tag choice moves depth, `any` and the offset as the branches do, and the whole-file scan from before the iteration equals the one from after it, or ends there with the root closed or the file exhausted |
| XmlScan.CloseBlocksOpen | large_image_source_isyntax/__init__.py:211-215 | no open tag starts inside a close tag |
| XmlScan.OccursInBuffer | large_image_source_isyntax/__init__.py:205-215 | a tag found in the buffer at `j` is a tag of the file at offset `at + j`, and the reverse |
| XmlScan.NoTagInBuffer | large_image_source_isyntax/__init__.py:205-215 | a buffer with no tag before `n` means the file has none between `at` and `at + n` |
| XmlScan.HitInFile | large_image_source_isyntax/__init__.py:205-215 | the tag the loop picks in the buffer is the first tag of the file from the buffer's offset |
| XmlScan.ChunkHit | large_image_source_isyntax/__init__.py:205-217 | an open tag raises the depth and sets `any`, a close tag lowers it, and the close tag that reaches depth 0 ends the scan just past itself |
| XmlScan.BufferHoldsNoTag | large_image_source_isyntax/__init__.py:218-220 | a buffer with no whole tag means no tag starts in the file before its last 12 bytes, nor at all once the file is exhausted |
| XmlScan.ChunkSkip | large_image_source_isyntax/__init__.py:218-223 | advancing `xmllen` by `max(0, len(data) - 12)` leaves the scan's outcome unchanged, and at the end of the file the scan ends exhausted there |
| XmlScan.BalancedEndsWithClose | large_image_source_isyntax/__init__.py:211-217 | when the root closes, the counted length ends with a `</DataObject` tag inside the file |
| XmlScan.ExhaustedNearEnd | large_image_source_isyntax/__init__.py:218-223 | when the file runs out first, the counted length stops within the last 12 bytes of the file |
| XmlScan.ScanSees | large_image_source_isyntax/__init__.py:205-208 | an open tag at or after the scan position, at depth 0 or below, is always counted, so the scan reports one |
| XmlScan.ProbeOpen | large_image_source_isyntax/__init__.py:200-203 | a probe that finds `<DataObject` locates an open tag within the first 256 bytes of the file |
| XmlScan.ProbeSeesOpen | large_image_source_isyntax/__init__.py:200-227 | a probe that finds `<DataObject` guarantees the scan sees an open tag, so the "could not locate XML" exit is never taken |
| XmlScan.ReadXml | large_image_source_isyntax/__init__.py:191-248 | the chunked reader returns exactly the whole-file specification's outcome: the same error, or the same metadata |
| XmlScan.ReadDocumentOutcomes | large_image_source_isyntax/__init__.py:200-238 | no initial tag if and only if the probe lacks `<DataObject`; only the probe, the 100 MiB limit and the parser can fail; a success holds the counted length plus one, within the limit, and the tree the parser gave for that many bytes, which end with a close tag when the root closed |
| XmlScan.FlattenKeeps | large_image_source_isyntax/__init__.py:239-247 | flattening keeps the counted length and the tree, and fails only in `philipsTag` or on an empty record list |
| XmlScan.ReadXmlOutcomes | large_image_source_isyntax/__init__.py:234-248 | the metadata comes from the parsed document, and every parse-stage failure is passed through unchanged |
| PhilipsTags.Convert | large_image_source_isyntax/__init__.py:83-93 | the integer type tags give an integer, the integer-array tags a list of integers, `IStringArray` a list of strings, `IDouble` a float, and any other tag leaves the value unchanged |
| PhilipsTags.PhilipsTag | large_image_source_isyntax/__init__.py:49-97 | every record in the result holds at least one attribute |
| PhilipsTags.TagObjects | large_image_source_isyntax/__init__.py:59-96 | the DataObject loop yields at most one record per DataObject, none of them empty (which DataObject each record comes from is stated by `TagObjectsKeeps`) |
| PhilipsTags.TagEntries | large_image_source_isyntax/__init__.py:64-94 | the attribute loop keeps every key already stored, every key it adds is the name of one of its attributes, and the name of every attribute that is not a skipped empty `Array` is stored |
| PhilipsTags.TagEntry | large_image_source_isyntax/__init__.py:65-94 | one attribute stores at most its own name, and leaves every other key unchanged; an `Array` that flattens to nothing stores nothing and leaves the empty list as `value`; any other attribute stores its name, with the type tag's conversion of the flattened `Array`, of its text (decoded for the binary keys), or of the previous attribute's `value`, and that stored value becomes the new `value` |
| PhilipsTags.Store | large_image_source_isyntax/__init__.py:83-94 | the value the type tag's conversion gives is stored under the key and becomes the new `value`; storing fails if and only if the conversion fails |
| PhilipsTags.TagObjectsAnyOwner | large_image_source_isyntax/__init__.py:59-96 | the result does not depend on the enclosing container |
| PhilipsTags.LoneObject | large_image_source_isyntax/__init__.py:56-58 | a lone DataObject flattens exactly as a one-element list holding it |
| PhilipsTags.TagObjectsAppend | large_image_source_isyntax/__init__.py:59-96 | DataObjects are flattened in document order: the records of `a + b` are those of `a` then those of `b`, with `value` carried across, and the first failure wins |
| PhilipsTags.TagObjectsAppendHead | large_image_source_isyntax/__init__.py:59-96 | the same, for a first DataObject whose attributes flatten |
| PhilipsTags.TagObjectsFirst | large_image_source_isyntax/__init__.py:59-96 | the first DataObject's record, when not empty, is the first record of the result |
| PhilipsTags.TagObjectsKeeps | large_image_source_isyntax/__init__.py:59-96 | a DataObject's non-empty record is kept, right after the records of the DataObjects before it, and holds the name of each of its attributes that is not a skipped empty `Array` |
| PhilipsTags.PhilipsTagKeeps | large_image_source_isyntax/__init__.py:49-97 | in the result of `philipsTag`, the `i`-th DataObject's attribute names are stored in the record that follows those of the DataObjects before it |
| PhilipsTags.EmptyArrayDropped | large_image_source_isyntax/__init__.py:66-69 | an `Array` that flattens to nothing stores nothing, and leaves the empty list in `value` |
| PhilipsTags.BareAttributeReuses | large_image_source_isyntax/__init__.py:64-94 | an attribute with neither `Array` nor text stores the previous attribute's value, converted, and fails as unbound when there is none |
| PhilipsTags.BareDoubleReusesDouble | large_image_source_isyntax/__init__.py:64-94 | a bare `IDouble` attribute after a floating-point one stores that same float under its name, since `float()` of a float gives it back |
| PhilipsTags.TruncateOnlyBinary | large_image_source_isyntax/__init__.py:72-82 | truncate mode changes only the binary keys other than the barcode |
| PhilipsTags.PlainTextAttribute | large_image_source_isyntax/__init__.py:70-94 | a text attribute with no `PMSVR` tag, outside the binary keys, stores its text unchanged under its name, and the text becomes the new `value` |
| PhilipsTags.IntAttribute | large_image_source_isyntax/__init__.py:89-90 | an integer-typed attribute holding the decimal text of `n` stores `n` |
| PhilipsTags.IntArrayAttribute | large_image_source_isyntax/__init__.py:91-93 | an integer-array attribute holding space-separated decimals stores that list of integers |
| PhilipsTags.ConvertIntArray | large_image_source_isyntax/__init__.py:91-93 | `[int(v) for v in value.split()]` inverts joining the decimals with spaces |
| PhilipsTags.StringArrayAttribute | large_image_source_isyntax/__init__.py:83-84 | an `IStringArray` attribute holding `"a" "b" ...` stores the list `a, b, ...` |
| Text.SplitWhitespace | large_image_source_isyntax/__init__.py:88 | `str.split()` yields only non-empty words without whitespace |
| Text.SplitJoinSpaces | large_image_source_isyntax/__init__.py:93 | splitting words joined by single spaces gives the words back |
| Text.StripChar | large_image_source_isyntax/__init__.py:84 | `strip('"')` leaves no quote at either end and never lengthens the text |
| Text.FindFacts | large_image_source_isyntax/__init__.py:205-215 | `bytes.find` returns the first occurrence, and -1 (None) exactly when there is none |
| Text.SplitJoinOn | large_image_source_isyntax/__init__.py:84 | `split('" "')` inverts joining items that contain no quote |
| Text.StringArrayRoundTrip | large_image_source_isyntax/__init__.py:84 | `value.strip('"').split('" "')` gives back the quoted items |
| Text.ParseShowInt | large_image_source_isyntax/__init__.py:90 | `int()` of an integer's decimal text is that integer |
| Text.ParseInts | large_image_source_isyntax/__init__.py:93 | parsing succeeds with one integer per word |
| Text.IntArrayRoundTrip | large_image_source_isyntax/__init__.py:93 | parsing the space-joined decimals of a list gives the list back |
| Text.Lower | large_image_source_isyntax/__init__.py:336 | `str.lower` maps every character and keeps the length |
| LevelTable.LevelCount | large_image_source_isyntax/__init__.py:164-165 | the level count is the least count whose coarsest level (512 pixels doubled per level) covers the larger image side |
| LevelTable.LevelCountIsLeast | large_image_source_isyntax/__init__.py:164-165 | no smaller count covers the image |
| LevelTable.LevelCountExample | large_image_source_isyntax/__init__.py:164-165 | a 2000-pixel side needs 3 levels; 512 pixels need 1 and 513 need 2 |
| LevelTable.Pow2Add | large_image_source_isyntax/__init__.py:300-302 | the powers of two of the walk multiply: `2^(a+b) = 2^a * 2^b` |
| LevelTable.RoundLog2 | large_image_source_isyntax/__init__.py:173 | `round(log2(n))` is the `k` with `4^k <= 2n^2 < 4^(k+1)`, the integer form of `2^(k-1/2) <= n < 2^(k+1/2)` |
| LevelTable.RoundLog2Unique | large_image_source_isyntax/__init__.py:173 | only one `k` satisfies those bounds |
| LevelTable.RoundLog2OfPow2 | large_image_source_isyntax/__init__.py:173 | a native level of step `2^k` goes into slot `k` |
| LevelTable.RoundLog2Zero | large_image_source_isyntax/__init__.py:173-179 | slot 0 takes exactly the native levels of step 1 |
| LevelTable.LastMatchFacts | large_image_source_isyntax/__init__.py:167-176 | the native level a slot ends with is the last one that maps to it, and no later one does |
| LevelTable.SlotHoldsItsStep | large_image_source_isyntax/__init__.py:167-176 | a filled slot `k` holds a native level with equal positive x and y steps whose rounded logarithm is `k` |
| LevelTable.ResolveLevels | large_image_source_isyntax/__init__.py:166-176 | the `_levelIdx` loop fails (`math.log` of a non-positive step) if and only if some candidate native level has such a step; otherwise every slot holds the last native level that maps to it |
| IsyntaxSource.IndexOf | large_image_source_isyntax/__init__.py:147-149 | `list.index` gives the first position of the name, and raises exactly when the name is absent |
| IsyntaxSource.AxesOf | large_image_source_isyntax/__init__.py:146-152 | the axes are found if and only if `x`, `y` and `component` are all dimension names |
| IsyntaxSource.ViewShaped | large_image_source_isyntax/__init__.py:167-168 | each native level of the view holds a range triple for each found axis |
| IsyntaxSource.LargerSide | large_image_source_isyntax/__init__.py:164-165 | the larger image side is one of the two sides and at least each of them |
| IsyntaxSource.Open | large_image_source_isyntax/__init__.py:115-179 | each error is raised exactly when every earlier check passed and its own fails: unreadable header, missing axes, 1 to 4 components violated, `math.log` domain error, empty slot 0. On success the source holds the header's metadata, the axes, the sizes, the least covering level count and the resolved table, and satisfies `Valid` |
| IsyntaxSource.ResolvedTableValid | large_image_source_isyntax/__init__.py:160-179 | a source whose table is the resolved level table of shaped native levels, with slot 0 filled and enough levels to cover the image, meets the opening invariant |
| IsyntaxSource.SlotZeroFullResolution | large_image_source_isyntax/__init__.py:173-179 | the native level in slot 0 is at full resolution: its step is 1 |
| TileCompositor.TruncDivNegative | large_image_source_isyntax/__init__.py:307 | `int((y1 - y0) / step)` is negative, so `numpy.empty` raises, exactly when the box is inverted by at least one step |
| TileCompositor.TruncDivBelow | large_image_source_isyntax/__init__.py:307 | for a box that is not inverted, the whole steps counted fit in the box |
| TileCompositor.CeilDivStride | large_image_source_isyntax/__init__.py:315-316 | striding a side of `n` by `d` keeps `ceil(n / d)` positions |
| TileCompositor.StrideFitsTile | large_image_source_isyntax/__init__.py:315-316 | striding at most `512 * scale` positions by `scale` keeps at most 512 |
| TileCompositor.NearestFilled | large_image_source_isyntax/__init__.py:299-302 | the walk stops at the nearest filled slot at or below the start, and every slot between is empty |
| TileCompositor.TrimFacts | large_image_source_isyntax/__init__.py:303-306 | the trimmed edge is never above the edge or the native stop; it is the stop, or the largest multiple of the step at or below the edge |
| TileCompositor.Subsample | large_image_source_isyntax/__init__.py:315-316 | `tile[::scale, ::scale]` has `ceil(rows / scale)` by `ceil(cols / scale)` pixels, pixel `(i, j)` being buffer pixel `(i * scale, j * scale)` |
| TileCompositor.SubsampleByOne | large_image_source_isyntax/__init__.py:315-316 | striding by 1 keeps the buffer, so skipping the subsample at scale 1 changes nothing |
| TileCompositor.Buffer | large_image_source_isyntax/__init__.py:307-314 | the buffer has the allocated shape and holds at each position the engine's pixel for the region |
| TileCompositor.ComposeFacts | large_image_source_isyntax/__init__.py:307-316 | the tile has `ceil(rows / scale)` by `ceil(cols / scale)` pixels, pixel `(i, j)` being the engine's pixel at `(i * scale, j * scale)` |
| TileCompositor.ComposeIsStridedBuffer | large_image_source_isyntax/__init__.py:307-316 | the tile's pixels are the engine's buffer strided by the scale, and the buffer itself at scale 1 |
| TileCompositor.BufferFitsTile | large_image_source_isyntax/__init__.py:303-316 | a box of at most 512 requested steps gives at most 512 pixels per side after striding |
| TileCompositor.WalkToFilled | large_image_source_isyntax/__init__.py:298-302 | the `while` loop stops at the nearest filled slot; the step is `2^slot` and the scale `2^(start - slot)`, so the two multiply to the requested step |
| TileCompositor.ComposeTile | large_image_source_isyntax/__init__.py:303-316 | after the walk, the tile fails exactly when its geometry does, has that geometry otherwise, and holds the composed pixels |
| TileCompositor.GetTile | large_image_source_isyntax/__init__.py:295-318 | `getTile` fails exactly when the planned geometry fails; otherwise the tile has the planned geometry and the engine's pixels strided by its scale |
| TileCompositor.TileSlot | large_image_source_isyntax/__init__.py:296-302 | the tile comes from the nearest filled slot at or below the requested one, all slots between being empty, and scale times native step is the requested step |
| TileCompositor.TileRegion | large_image_source_isyntax/__init__.py:303-314 | the requested region is the box with its right and bottom edges trimmed, less one native step, at the slot's native level; the tile fails exactly when the trimmed box is inverted by a whole step |
| TileCompositor.TileFits | large_image_source_isyntax/__init__.py:296-316 | a box of at most 512 requested steps per side gives a tile of at most 512 pixels per side |
| AssociatedImages.ListedName | large_image_source_isyntax/__init__.py:334-336 | the name is as long as the key, less 5 when the key ends in `IMAGE` after something; each of its characters is the key's character at that position, lowercased; it holds no ASCII capital |
| AssociatedImages.AssociatedImagesList | large_image_source_isyntax/__init__.py:323-337 | the list never has more names than there are images |
| AssociatedImages.AssociatedImagesListContents | large_image_source_isyntax/__init__.py:323-337 | a name is listed if and only if it is the listed name of some image other than `WSI`; without a `WSI` image, every image is listed |
| AssociatedImages.ListedNameMatches | large_image_source_isyntax/__init__.py:334-349 | each key matches its own listed name under the lookup's test |
| AssociatedImages.FirstMatch | large_image_source_isyntax/__init__.py:346-351 | the position of a key that matches, with no key before it matching; nothing exactly when no key matches |
| AssociatedImages.FindAssociatedImage | large_image_source_isyntax/__init__.py:346-351 | the loop returns the first image whose key matches (`FirstMatch`), and nothing exactly when no key matches |
| AssociatedImages.ListedNamesResolve | large_image_source_isyntax/__init__.py:329-351 | looking up the listed name of the `i`-th image finds an image, at position `i` or before it |
| AssociatedImages.WsiShadowsListedName | large_image_source_isyntax/__init__.py:329-351 | with images `WSI` and `WSIIMAGE`, the list is `["wsi"]`, but looking `wsi` up finds the `WSI` image |

## Left out

- The XML parser (`xml.etree.ElementTree.fromstring`) and `etreeToDict` are outside the model. The parser is a parameter that returns a tree or nothing. The tree is given in the dictionary form `philipsTag` reads.
- Logging, the `_xmltree`/`_xmldata` attributes and the `with` file handling are left out. The file is a byte sequence, and the read cursor is a position in it.
- `ISyntaxFileTileSource.__init__` up to `_readXML`, and the pixel engine calls: `_lazyImport`, the render context and backend, `pe.open` with its file-not-found and `RuntimeError` paths, and `source_view`. The engine's view is a `SourceView` value passed in. It is assumed well formed (one size per dimension, three-element ranges), as the engine guarantees.
- `IsyntaxSource.Open`: a pixel size list too short for a found axis would be an `IndexError` in Python. The model requires a well-formed view instead.
- The micrometre scale (`_mm_x`, `_mm_y`), `getNativeMagnification`, `getMetadata` and `getInternalMetadata` are left out. They are floating-point arithmetic and engine attribute listings.
- `LevelTable.LevelCount`, `LevelTable.RoundLog2`: these give the exact integer values that `math.ceil(math.log(...))` and `round(math.log(...))` stand for. Float rounding at exact powers of two is not modelled. An image whose larger side is zero makes `math.log` raise, and `Open` reports this as `MathDomainError`.
- `PhilipsTags.Convert`: `IDouble` and `IDoubleArray` keep the literal text, because float parsing is not modelled.
- `PhilipsTags.Convert`: a conversion applied to a value that is not plain text fails as `NotText`, except `int()` of an integer and `float()` of a float, which give the value back. Python differs in these cases:
  - the decoded barcode and the truncated `repr` preview are `str` in Python, so all five conversions apply to them; the model holds only their base64 text, not the decoded string, and fails;
  - `int()` of a float truncates it, and `float()` of an integer converts it;
  - the list conversions (`IStringArray`, `IDoubleArray`, the integer-array tags) of a value that is already a list or a number raise in Python as well, so only the error kind differs there;
  - `int()`, `float()` and the integer-array conversion accept undecoded `bytes` holding ASCII numbers, where the model fails.
- Attribute order within a record: a record is a `map`, so the insertion order of the Python dict `subresult` (the order of the attributes) is not kept.
- `base64.b64decode`, `bytes.decode` and `repr` are left out. The binary keys keep their base64 text, tagged with the decoding that would have happened.
- `PhilipsTags.TextValue`: `base64.b64decode` raises `binascii.Error` on malformed text (such as `abc`), which fails the open in Python. The model never fails there and keeps the text.
- `Text.ParseInt`: this models `int()` on ASCII decimal text with optional sign and surrounding whitespace. Underscores and non-ASCII digits are not modelled.
- `Text.Lower`, `Text.SplitWhitespace`: ASCII case and whitespace only, not Unicode.
- `getTile`: `_xyzInRange` and `_xyzToCorners` belong to the generic tile source. Their results appear as the preconditions `z < levels` and `step == 2^(levels - 1 - z)`.
- The method cache, the `_tileLock` lock, `__del__` and `_outputTile` (image encoding) are left out.
- The engine's `request_regions` / `region.get` is a function from the region request and a buffer position to an RGBA pixel. The background colour and asynchronous rendering are not modelled.
- `TileCompositor.ComposeTile`: the pixel sizes use the exact integer form of `int((y1 - y0) / step)`. Step is a power of two, so the float division in the source is exact for image-sized integers.
- `_getAssociatedImage`: decoding the image data (`PIL.Image.open`) is left out. So is the truthiness test `if img` on an engine object. The model returns the position of the matched image.

## Notes on the code

- When the file ends before the root element closes, `_readXML` does not report "not found". It re-reads the counted length plus one byte and hands that to the parser. `ReadDocumentSpec` keeps this: the scan ends `Exhausted` and the parser decides.
- The exit for "could not locate XML" (`if not any`) cannot be taken. The first 256 bytes hold an open tag, which is counted before any chunk is dropped (`XmlScan.ProbeSeesOpen`). It is modelled, with the `NoXml` error, and shown unreachable.
- An empty record list makes `self._philips[0]` raise. The model reports this as `NoRecords`.
- A native level's slot is found from its x *step*, `dimension_ranges(level)[x][1]`.
- `getAssociatedImagesList` skips only the key `WSI`, and `_getAssociatedImage` skips nothing. So a `WSIIMAGE` image is listed as `wsi`, but asking for `wsi` returns the whole-slide image when it comes first (`AssociatedImages.WsiShadowsListedName`).
- When the requested slot is empty, `getTile` walks to slots with a *smaller* step, meaning finer native data. It then subsamples that data by the scale.
