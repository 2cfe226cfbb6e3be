# sourcenav: the nav-file decoder

This project models `read_areas`, the decoder that turns the bytes of a Source
engine navigation mesh (a `.nav` file) into the list of its navigation areas. It
also models the record layouts that decoder draws on.

The decoder works in this order:

- It checks the 32-bit magic number `0xFEED_FACE`.
- It checks that the major version is between 6 and 16.
- It reads the header fields that the version stores:
  - a minor version from version 10 on;
  - a size word;
  - an "is analysed" byte from version 14 on;
  - the place table, a 16-bit count of names, each a 16-bit length and that many bytes;
  - a "has unnamed areas" byte from version 12 on;
  - the 32-bit area count.
- It reads exactly that many area records, in file order. The version decides:
  - the width of each record's flags: 8 bits up to version 8, 16 bits up to 12, 32 bits after that;
  - whether the approach areas, the light intensity and the visible areas are present.
- Each record ends with 32 bits that are skipped.
- The first read that runs out of data ends the whole decode with a read error. The
  allocations `read_areas` sizes from a count before reading the records are not
  modelled (see "Left out").

The stream is little-endian and every read is a whole number of bytes. So the bit
stream is modelled as a byte sequence `seq<u8>` plus a byte position. Floats are
only copied and never computed with, so they are kept as their 32-bit patterns.

## Modules

- `Wire` (wire.dfy) is the byte stream:
  - little-endian reads of 8, 16 and 32 bits, and byte skips;
  - the reader's error `NotEnoughData(requested bits, bits left)`;
  - the combinators for a fixed number of records (`DecodeMany`) and for a count-prefixed list (`DecodeCounted`, the `read_sized` pattern);
  - the predicate `At(s, pos, e)`, "the bytes `e` stand at `pos`".
- `NavMesh` (navmesh.dfy) holds the records:
  - `Vector3`, `NavHidingSpot`, `ApproachArea`, `EncounterPath`/`EncounterSpot`, `LightIntensity`, `VisibleArea`;
  - their decoders, in field declaration order, and their encoders;
  - the two direction-indexed connection tables, with the loops `Connections::read` and `LadderConnections::read` as methods.
- `Parser` (parser.dfy) covers the file:
  - the error kinds and the version table `SchemaFor`;
  - the header and area decoders, and the whole-file decoder `Decode`;
  - an encoder for the same layout and the layout lemmas connecting the two.
- `ReadAreas` (read_areas.dfy) covers `read_areas` itself:
  - the decoder as `read_areas` writes it, a method advancing a position with two loops and early returns, proved equal to `Decode`;
  - the properties of a whole decode.

Each decoder has a partner:
- Its encoder. One lemma says a successful decode consumed exactly the encoding of what it returned. Another says decoding an encoding, whatever follows it, gives the value back.
- Where the Rust decoder loops (the place table, the id lists, the area loop), a method. Its postcondition ties it to the decoding function.

## Model

| member | source | states |
|---|---|---|
| Parser.Decode | src/parser.rs:22-144 | `read_areas` as a function: a success means the first word is the magic number and the second a supported version |
| Parser.DecodeFile | src/parser.rs:22-139 | the header, then exactly `area_count` areas in the layout of the header's version |
| Parser.LaterVersionsStoreMore | src/parser.rs:35-114 | the version table `SchemaFor`: a later version stores every optional field an earlier one does, with flags at least as wide, except the approach areas, which only earlier versions store |
| Parser.DecodeHeader | src/parser.rs:24-60 | a decoded header passed the magic-number check, has the major version read as the second word, and that version is supported |
| Parser.DecodeHeaderFields | src/parser.rs:35-60 | the fields after the version are read under the gates of the version given, which the header keeps |
| Parser.DecodePlaceName | src/parser.rs:49-50 | a name reads if and only if its 16-bit length and that many bytes are left; it ends right after them |
| Parser.DecodeArea | src/parser.rs:65-118 | one area record: flags within the version's width, and empty or default values in every field the version does not store |
| Parser.DecodeAreaShape | src/parser.rs:65-78 | the shape fields read if and only if `36 + flags width` bytes are left, and take exactly that many |
| Parser.DecodeAreaLinks | src/parser.rs:80-98 | the link fields have no approach areas in versions that do not store them |
| Parser.DecodeAreaTail | src/parser.rs:100-116 | the tail fields hold the default light intensity and no visible areas in versions that do not store them |
| NavMesh.ConnectionsTo | src/navmesh.rs:87-93 | `connections[direction]` is one of the table's four lists (which one: `NavMesh.ConnectionsByDirection`) |
| NavMesh.LadderConnectionsTo | src/navmesh.rs:114-120 | `ladder_connections[direction]` is one of the table's two lists |
| NavMesh.DecodeVector3 | src/navmesh.rs:6-7 | a vector reads if and only if 12 bytes are left, and takes exactly 12 |
| NavMesh.DecodeHidingSpot | src/navmesh.rs:140-145 | a hiding spot reads if and only if 17 bytes are left, and takes exactly 17 |
| NavMesh.DecodeApproachArea | src/navmesh.rs:147-154 | an approach area reads if and only if 14 bytes are left, and takes exactly 14 |
| NavMesh.DecodeEncounterPath | src/navmesh.rs:156-164 | a decoded path has fewer than 256 spots, the limit of its 8-bit count |
| NavMesh.DecodeEncounterSpot | src/navmesh.rs:166-170 | a spot reads if and only if 5 bytes are left, and takes exactly 5 |
| NavMesh.DecodeLightIntensity | src/navmesh.rs:172-178 | a light intensity reads if and only if 16 bytes are left, and takes exactly 16 |
| NavMesh.DecodeVisibleArea | src/navmesh.rs:180-184 | a visible area reads if and only if 5 bytes are left, and takes exactly 5 |
| NavMesh.DecodeIdList | src/navmesh.rs:76-80 | a decoded id list has fewer than 2^32 ids, the limit of its 32-bit count |
| NavMesh.DecodeConnections | src/navmesh.rs:71-85 | each of the four decoded lists fits its 32-bit count |
| NavMesh.DecodeLadderConnections | src/navmesh.rs:98-111 | each of the two decoded lists fits its 32-bit count |
| ReadAreas.ReadAreas | src/parser.rs:22-144 | the stepwise decoder returns exactly what `Decode` returns: the areas, or the first error |
| ReadAreas.ShortInput | src/parser.rs:24 | fewer than four bytes fails with the read error for 32 bits requested and `8*len` bits left |
| ReadAreas.MagicChecked | src/parser.rs:24-27 | the result is `InvalidMagicNumber(m)` if and only if the first word reads as `m` and `m` is not `0xFEED_FACE` |
| ReadAreas.MagicOnly | src/parser.rs:25-27 | after a wrong magic number nothing else is looked at: any bytes after the first word give the same failure, carrying the value read |
| ReadAreas.VersionChecked | src/parser.rs:29-33 | the result is `UnsupportedVersion(v)` if and only if the magic number is right and the second word `v` is below 6 or above 16 |
| ReadAreas.ReadHeaderFields | src/parser.rs:35-60 | the stepwise header read succeeds exactly when the header decoder does, returns its area count and position, and otherwise returns its error |
| ReadAreas.SkipPlaces | src/parser.rs:45-52 | the place-table skip succeeds exactly when the counted name decode does, and stops where it stops or fails with its error |
| ReadAreas.SkipPlaceNames | src/parser.rs:48-52 | the loop over `n` names agrees with decoding `n` names: same success, same end position, same error |
| Parser.PlaceNameCodec | src/parser.rs:49-50 | a place name is a 16-bit length and that many bytes; decoding gives back the name it encoded |
| Parser.PlacesEncodes | src/parser.rs:45-52 | a place table that decodes has fewer than 65536 names, each shorter than 65536 bytes, and the decode consumed exactly its encoding |
| Parser.PlacesAt | src/parser.rs:45-52 | where a place table's encoding stands, it decodes to those names and ends where the encoding ends |
| Parser.HeaderFieldsEncodes | src/parser.rs:35-60 | header fields that decode are zero where the version stores nothing, and their encoding stands where they were read |
| Parser.HeaderFieldsInverts | src/parser.rs:35-60 | where the encoding of fitting header fields stands, they decode back to themselves and stop where the encoding ends |
| Parser.HeaderEncodes | src/parser.rs:24-60 | a header that decodes has a supported version, fits its version, and was read from its encoding at the start of the file |
| Parser.HeaderInverts | src/parser.rs:24-60 | a fitting header's encoding at the start of the data decodes to that header, ending where the encoding ends |
| Parser.HeaderLength | src/parser.rs:35-60 | a header takes 18 bytes (magic, version, size, place count, area count), plus 4 for a minor version (version 10 on), 1 for the analysed byte (14 on), the place names and 1 for the unnamed-areas byte (12 on) |
| Parser.HeaderConsumes | src/parser.rs:24-60 | a decoded header ends after exactly that many bytes and fits its version |
| Parser.ReadFlags | src/parser.rs:67-73 | the flags read succeeds if and only if the version's width of bytes is left; the value is below 256 to the width, zero-extended to 32 bits |
| Parser.FlagsAt | src/parser.rs:67-73 | flags encoded in the version's width read back as the same value |
| ReadAreas.ReadAreaShape | src/parser.rs:65-78 | the stepwise read of the id, the flags, the corners and the corner heights equals `DecodeAreaShape` |
| ReadAreas.ReadAreaLinks | src/parser.rs:80-98 | the stepwise read of the connections, hiding spots, approach areas (before version 15), encounter paths, place and ladder connections equals `DecodeAreaLinks` |
| ReadAreas.ReadAreaTail | src/parser.rs:100-116 | the stepwise read of the occupy times, light intensity (version 11 on), visible areas (version 16 on) and inherited id equals `DecodeAreaTail` |
| ReadAreas.ReadArea | src/parser.rs:65-138 | one pass of the area loop, ending with the 32-bit skip, equals `DecodeArea` |
| ReadAreas.ReadAreaList | src/parser.rs:62-139 | the area loop returns exactly what decoding `n` records returns: all `n` areas in file order, or the first error with no partial list |
| ReadAreas.ReadAreaLoop | src/parser.rs:64-139 | the same loop, for any reader that agrees with the area decoder, returns exactly what reading `n` records with that reader returns |
| ReadAreas.ReadNextArea | src/parser.rs:65-118 | one pass of the loop body returns what the reader returns at that position |
| Parser.DecodeAreas | src/parser.rs:62-139 | a successful area decode returns exactly `area_count` areas |
| Parser.ApproachAreasEncodes | src/parser.rs:85-91 | approach areas are read only when the version stores them; otherwise the list is empty and no byte is consumed |
| Parser.ApproachAreasAt | src/parser.rs:85-91 | an approach-area list encoded as the version stores it reads back as the same list |
| Parser.LightAt | src/parser.rs:103-107 | a light intensity is read only when the version stores it and otherwise is all zeros, consuming nothing |
| Parser.VisibleAreasAt | src/parser.rs:109-114 | visible areas are read with a 32-bit count only from version 16; before that the list is empty and consumes nothing |
| Parser.EncounterPathsAt | src/parser.rs:93-94 | encounter paths with a 32-bit count read back as the same paths |
| Parser.HidingSpotsEncodes | src/parser.rs:82-83 | hiding spots that decode have an 8-bit count and were read from their encoding |
| Parser.AreaShapeEncodes | src/parser.rs:65-78 | the shape fields that decode have flags within their width and were read from their encoding |
| Parser.AreaShapeInverts | src/parser.rs:65-78 | the encoding of fitting shape fields decodes back to them |
| Parser.AreaLinksEncodes | src/parser.rs:80-98 | the link fields that decode fit their counts and the version, and were read from their encoding |
| Parser.AreaLinksInverts | src/parser.rs:80-98 | the encoding of fitting link fields decodes back to them |
| Parser.AreaTailEncodes | src/parser.rs:100-116 | the tail fields that decode hold the defaults where the version stores nothing, and were read from their encoding |
| Parser.AreaTailInverts | src/parser.rs:100-116 | the encoding of fitting tail fields decodes back to them |
| Parser.AreaEncodes | src/parser.rs:65-138 | an area that decodes fits the version, its fields were read from its encoding, and the record, including the 32 skipped bits, was consumed exactly |
| Parser.AreaInverts | src/parser.rs:65-138 | a fitting area's encoding, followed by any four bytes, decodes back to that area |
| Parser.AreaLength | src/parser.rs:65-118 | an area record's size is the sum of its field widths, following the version's gates |
| Parser.AreaGroups | src/parser.rs:120-138 | the record is the three field groups put together: splitting and joining are inverse |
| Parser.AreasEncode | src/parser.rs:62-139 | `n` areas that decode all fit the version, and the decode consumed exactly their encoding |
| Parser.AreasInvert | src/parser.rs:62-139 | the encoding of fitting areas decodes back to them, in order |
| Parser.AreasExtend | src/parser.rs:62-139 | areas that decode decode the same way on any data that continues the input |
| Parser.AreaExtends | src/parser.rs:65-118 | one area decodes the same way on any data that continues the input |
| ReadAreas.FileEncodes | src/parser.rs:24-139 | a successful whole decode read a fitting header and areas, exactly their encoding, within the input |
| ReadAreas.FileRoundTrip | src/parser.rs:22-144 | a fitting header and areas, encoded and followed by any bytes, decode back to the areas |
| ReadAreas.SuccessShape | src/parser.rs:60-143 | on success there are exactly `area_count` areas, each fitting the version's layout |
| ReadAreas.RemainingBits | src/parser.rs:141 | after decoding a file, at most 32 bits are left exactly when at most four bytes follow its encoding |
| ReadAreas.HeaderExtends | src/parser.rs:24-60 | a header that decodes decodes the same way on data that continues the input |
| ReadAreas.FileExtends | src/parser.rs:22-139 | a decode that succeeds succeeds the same way on data that continues the input |
| ReadAreas.TruncatedRejected | src/parser.rs:24-118 | a prefix shorter than what a successful decode read does not decode |
| ReadAreas.CheckFailureExtends | src/parser.rs:24-33 | a failed magic or version check fails the same way on data that continues the input |
| ReadAreas.TruncatedFails | src/parser.rs:24-118 | a prefix shorter than what a successful decode read fails with a read error, never with a partial list |
| ReadAreas.EmptyVersion9Decodes | src/parser.rs:22-144 | the 18-byte version-9 file with no places and no areas decodes to no areas |
| NavMesh.ReadConnections | src/navmesh.rs:71-85 | the loop over four directions, each a 32-bit count and that many ids, equals `DecodeConnections` |
| NavMesh.ReadLadderConnections | src/navmesh.rs:98-111 | the same loop over the two ladder directions equals `DecodeLadderConnections` |
| NavMesh.ReadIdLists | src/navmesh.rs:75-81 | reading `k` count-prefixed lists slot after slot equals decoding `k` lists |
| NavMesh.ReadIdList | src/navmesh.rs:76-80 | one slot, a count and a loop over that many ids, equals decoding a count-prefixed list |
| NavMesh.ConnectionsLayout | src/navmesh.rs:71-85 | the connections take `16 + 4*(c0+c1+c2+c3)` bytes; decoded lists fit their counts and were read from their encoding, in stream order |
| NavMesh.LadderConnectionsLayout | src/navmesh.rs:98-111 | the ladder connections take `8 + 4*(c0+c1)` bytes; decoded lists fit their counts and were read from their encoding |
| NavMesh.IdListLayout | src/navmesh.rs:76-80 | an id list takes `4 + 4*n` bytes and reads back from its encoding |
| NavMesh.IdListsLayout | src/navmesh.rs:75-81 | `k` decoded lists were read from their encoding and end after `4*k` plus four bytes per id |
| NavMesh.SlotsMatchDirections | src/navmesh.rs:87-93 | direction-to-slot indexing is a bijection: North, East, South, West to 0..3 and Up, Down to 0..1 |
| NavMesh.ConnectionsByDirection | src/navmesh.rs:87-93 | indexing by North, East, South, West lists the whole connection table, each slot once |
| NavMesh.LadderConnectionsByDirection | src/navmesh.rs:114-120 | indexing by Up, Down lists the whole ladder table, each slot once |
| NavMesh.ConnectionsReadInOrder | src/navmesh.rs:75-81 | the list indexed by a direction is the one read in its turn: North first, then East, South, West, each starting where the previous ended |
| NavMesh.LadderConnectionsReadInOrder | src/navmesh.rs:102-108 | the Up list is read first, then the Down list |
| NavMesh.NavSlot | src/navmesh.rs:122-130 | a planar direction's discriminant is below 4 |
| NavMesh.LadderSlot | src/navmesh.rs:132-138 | a ladder direction's discriminant is below 2 |
| NavMesh.Vector3Layout | src/navmesh.rs:6-7 | a vector is three 32-bit floats, 12 bytes, and reads back from its encoding |
| NavMesh.HidingSpotLayout | src/navmesh.rs:140-145 | a hiding spot is a u32, a vector and a u8, 17 bytes, and reads back from its encoding |
| NavMesh.HidingSpotCodec | src/navmesh.rs:140-145 | the hiding-spot decoder consumes its encoding and inverts the encoder |
| NavMesh.ApproachAreaLayout | src/navmesh.rs:147-154 | an approach area is u32, u32, u8, u32, u8, 14 bytes, and reads back from its encoding |
| NavMesh.ApproachAreaCodec | src/navmesh.rs:147-154 | the approach-area decoder consumes its encoding and inverts the encoder |
| NavMesh.EncounterPathLayout | src/navmesh.rs:156-164 | a path is two (u32, u8) pairs, an 8-bit spot count and the spots, `11 + 5*n` bytes, and reads back from its encoding |
| NavMesh.EncounterPathFieldsAt | src/navmesh.rs:156-164 | the four fixed fields of an encoded path read back in declaration order |
| NavMesh.EncounterPathCodec | src/navmesh.rs:156-170 | the encounter-path decoder consumes its encoding and inverts the encoder on paths of fewer than 256 spots |
| NavMesh.EncounterSpotLayout | src/navmesh.rs:166-170 | an encounter spot is a u32 and a u8, 5 bytes, and reads back from its encoding |
| NavMesh.EncounterSpotCodec | src/navmesh.rs:166-170 | the encounter-spot decoder consumes its encoding and inverts the encoder |
| NavMesh.LightIntensityLayout | src/navmesh.rs:172-178 | a light intensity is four 32-bit floats, 16 bytes, and reads back from its encoding |
| NavMesh.VisibleAreaLayout | src/navmesh.rs:180-184 | a visible area is a u32 and a u8, 5 bytes, and reads back from its encoding |
| NavMesh.VisibleAreaCodec | src/navmesh.rs:180-184 | the visible-area decoder consumes its encoding and inverts the encoder |
| NavMesh.IdListCodec | src/navmesh.rs:76-80 | the id-list decoder consumes its encoding and inverts the encoder on lists of fewer than 2^32 ids |

## Left out

- The stream library's internals are not modelled. The stream is a byte sequence and a position. The reader's error keeps only the bits requested and the bits left.
- Parser.DecodePlaceName: reads the name's bytes without checking that they are valid UTF-8. The library's string read can also fail on invalid text. The name is discarded anyway, so only that error case is missing.
- Parser.DecodeHeader: keeps the minor version, size, analysed byte, place names and unnamed-areas byte, which `read_areas` reads and drops. They are kept so that the header round trip can be stated. `ReadAreas.ReadHeaderFields` drops them as `read_areas` does.
- Parser.EncodeArea: writes zeros in the 32 skipped bits. The decoder accepts any four bytes there, as `Parser.AreaInverts` states.
- ReadAreas.ReadAreaShape, ReadAreas.ReadAreaLinks, ReadAreas.ReadAreaTail: the area loop's fields are read by these three group methods rather than one body that reads all 17 fields. This keeps each proof small; the sequence of reads is the same.
- The `read_sized` lists (hiding spots, approach areas, encounter paths, visible areas) are read by the `Wire.DecodeCounted` function, not by a loop method. The library performs that loop, not the Rust decoder.
- Parser.DecodeAreas: does not model the allocation `read_areas` makes from `area_count` before reading any record. With a huge count and too little data, the model ends in a read error, while `read_areas` first asks for room for all the areas and can abort if the allocation is refused.
- NavMesh.DecodeIdList: likewise does not model the allocation `Connections::read` and `LadderConnections::read` make from each 32-bit count before reading the ids.
- The connection tables' fixed-size arrays are sequences of exactly four and two lists.
- The `debug_assert!` at src/parser.rs:141 is a debug-only check, not a failure the decoder returns. It is stated as `ReadAreas.RemainingBits` about well-formed input.
- The geometry of `NavArea` (width, height, z-height, bounding box, src/navmesh.rs:30-66) is `f32` arithmetic. It is not modelled.
- The quadtree queries in src/lib.rs are not part of this model. They build an external spatial index and compute with floats.
- The error messages (src/parser.rs:9-19) are not modelled, only the error kinds.
- The test and benchmark files are not modelled. The fixture test at src/parser.rs:146-151 needs a file that is not part of this model.
