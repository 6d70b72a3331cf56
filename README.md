# RFID swim-race timing, modelled in Dafny

This project models the core of a small race-timing system for open-water
swimming, written in Python. It covers three parts:

- **Reading tags** (`rfid_nadadores.py`). The reader is an R300/YRM200 and
  speaks a framed binary protocol. A frame is `0xA0`, a length byte, a reader
  id, a command, the data and an additive checksum. The program builds and
  validates frames, decodes two kinds of tag record (real-time inventory and
  buffered), and reassembles frames from a byte stream that arrives in chunks.
  It drops noise byte by byte until it sees a header. A race ledger
  (`CompetenciaManager`) keeps the first sighting of each tag as an arrival,
  numbers arrivals from 1, and gives each one an elapsed time from an
  optional start instant.
- **Generating EPCs** (`generar_epcs.py`). Each 24-hex-digit code packs a
  fixed `E280` header, the event year, a distance code, a FECNA age category,
  the gender, a runner number, a reserved byte and an XOR checksum. The file
  also validates each request, builds a batch of codes for a race
  configuration, and splits a number of swimmers automatically over
  distances, genders and categories.
- **Cross-referencing results** (`cruzar_resultados.py`). This joins the
  results of a race with the roster of generated EPCs, and optionally with a
  file of names. EPCs are compared after normalisation: spaces removed,
  surrounding whitespace stripped, upper-case.

Imperative code stays imperative in the model. The reader's residual buffer
is a class field that the loop methods reassign. The ledger is a class whose
methods update its fields. The generator is a class that accumulates its
generated tags. Each loop in the source is a method with invariants, proved
equal to a specification function. The lemmas prove the properties about
those functions. The rest is functions and lemmas:
- frame building and parsing;
- tag decoding;
- the EPC layout and checksum;
- normalisation;
- the join.

Conventions:
- A byte is `Hex.byte`, a newtype for 0..255.
- Text is `string`.
- Timestamps are integer milliseconds, passed in by the caller.
- A missing file is `None`.
- A CSV row read by `csv.DictReader` is a `map` from column name to text.
- Every Python exception the core raises on purpose is an `Err` value or a
  `None` result. The error names are taken from the messages. The
  `IndexError` of a malformed buffered record is the `Raised` outcome of
  `TagRecords.Decoded`.

Where the code differs from its own documentation or tests (the model follows the code):

- `RFIDReader.checksum` is documented as an XOR of the bytes. The code
  returns the byte sum modulo 256 (rfid_nadadores.py:63-65), and the model
  uses the sum. The EPC checksum (generar_epcs.py:63-67) really is an XOR.
- Re-arming the race start is not rejected: `iniciar_carrera` overwrites
  the start instant (rfid_nadadores.py:268-271), and `IniciarCarrera` does
  the same.
- Malformed input can end a read session. A buffered record whose DataLen
  points past its payload raises `IndexError` in `parse_buffer_tag`. The `except Exception` handler of
  `read_tags_continuous` (rfid_nadadores.py:253-256) catches it and the
  session ends. The model keeps this: `Process` and `Session` stop at such a
  record, and the bytes after it stay in the buffer unread.
- The tests of the cross-reference expect an `epc_en_planilla` column. The
  code never writes that column, and the model's output has the code's 13
  columns.

Observations the proofs make explicit:
- A category listed twice in `categorias_enfoque` loses part of its share,
  because the dictionary keeps one entry and the last assignment wins
  (`Distribucion.RepeatedCategoryLosesShare`).
- A group listed twice in a race configuration yields the same EPCs twice
  (`Generador.RepeatedGroupRepeatsEpc`).

Neither is guarded against in the source.

## Model

| member | source | states |
|---|---|---|
| Hex.HexValue | generar_epcs.py:66 | a character has a hex value only below 16 (both letter cases read, as `int(c, 16)` does), and an upper-case digit is the digit of its own value |
| Hex.HexValueOfDigit | generar_epcs.py:66 | every digit that `f"{n:X}"` writes reads back as `n` |
| Hex.ByteToHex | generar_epcs.py:69 | `f"{b:02X}"` is exactly two upper-case hex digits |
| Hex.ByteHexRoundTrip | generar_epcs.py:66-69 | reading `f"{b:02X}"` with `int(·, 16)` gives `b` back |
| Hex.BytesToHex | rfid_nadadores.py:21 | `bytes.hex().upper()` is two upper-case hex digits per byte |
| Hex.HexToBytes | generar_epcs.py:65-66 | reading text two digits at a time gives one byte per pair |
| Hex.BytesHexRoundTrip | rfid_nadadores.py:21 | the EPC text of a tag reads back as exactly the EPC bytes it came from |
| Hex.HexPairRoundTrip | generar_epcs.py:66-69 | every pair of upper-case hex digits reads as a byte whose `02X` form is that pair |
| Hex.HexBytesRoundTrip | generar_epcs.py:65-66 | any even-length upper-case hex text reads as bytes that print back as that text |
| Hex.HexToBytesConcat | generar_epcs.py:65-66 | pairwise reading splits at an even boundary: the whole succeeds iff both parts do, and its bytes are theirs concatenated |
| Hex.HexToBytesJoin | generar_epcs.py:65-66 | the reading of a concatenation at an even boundary is exactly the join of the two readings: None when either fails, otherwise their bytes in order |
| Hex.HexFixed | generar_epcs.py:107 | `f"{n:0wX}"` gives exactly `w` upper-case hex digits |
| Hex.HexFixedRoundTrip | generar_epcs.py:123 | a number below 16^w printed with `w` digits reads back as itself |
| Text.RemoveSpaces | cruzar_resultados.py:18 | `replace(" ", "")` leaves no space and never lengthens the text |
| Text.RemoveSpacesConcat | cruzar_resultados.py:18 | removing spaces distributes over concatenation |
| Text.RemoveSpacesNoSpaces | cruzar_resultados.py:18 | text without spaces is left unchanged |
| Text.Strip | cruzar_resultados.py:18 | `strip()` leaves no whitespace (the `str.isspace` set) at either end and never lengthens the text |
| Text.StripNoEdgeSpace | cruzar_resultados.py:18 | text with no whitespace at its ends is left unchanged |
| Text.StripKeepsChars | cruzar_resultados.py:18 | `strip()` introduces no character its input lacks |
| Text.StripEmptyIffAllSpace | cruzar_resultados.py:18 | `strip()` gives the empty text exactly when every character is whitespace |
| Text.UpperChar | cruzar_resultados.py:18 | an upper-cased character is never a lower-case ASCII letter |
| Text.Upper | cruzar_resultados.py:18 | `upper()` keeps the length and upper-cases each character in place |
| Frames.ChecksumConcat | rfid_nadadores.py:63-65 | the frame checksum is additive: the checksum of a concatenation is the sum of the parts' checksums modulo 256 |
| Frames.BuildFrame | rfid_nadadores.py:67-72 | `send_command` builds a frame exactly when the data fits the one-byte length field; the frame is five bytes longer than the data, and its length byte counts every byte after itself |
| Frames.ParseFrame | rfid_nadadores.py:76-95 | a frame is accepted iff it has at least 5 bytes, starts with `0xA0` and ends with the checksum of the rest; an accepted frame is exactly header, length, reader id, command, data and checksum |
| Frames.BuildParseRoundTrip | rfid_nadadores.py:67-95 | `parse_frame` accepts every frame `send_command` builds and returns its command, reader id and data |
| Frames.ParseBuildRoundTrip | rfid_nadadores.py:67-95 | an accepted frame with a consistent length byte is exactly the frame `send_command` builds from its fields |
| Frames.SingleByteCorruptionRejected | rfid_nadadores.py:78-84 | changing any one byte of an accepted frame makes `parse_frame` reject it |
| TagRecords.MakeTag | rfid_nadadores.py:20-24 | the tag's EPC text is upper-case hex that reads back as the EPC bytes, and its RSSI is the raw value minus 129 |
| TagRecords.AntennaOf | rfid_nadadores.py:121-129 | the antenna number is always between 1 and 8 |
| TagRecords.RssiOf | rfid_nadadores.py:125-126 | the raw RSSI is the low seven bits, 0..127 |
| TagRecords.AntennaRssiInjective | rfid_nadadores.py:121-129 | antenna and RSSI together determine the RSSI byte and the low two bits of FreqAnt (only the frequency bits are lost) |
| TagRecords.ParseInventoryTag | rfid_nadadores.py:97-131 | an inventory record yields a tag iff it has at least 5 bytes; the EPC is every byte between the PC and the final RSSI byte |
| TagRecords.ParseBufferTag | rfid_nadadores.py:133-181 | no tag under 9 bytes; it raises exactly when DataLen puts ReadCount past the payload; otherwise a tag on antenna 1..8 |
| TagRecords.DecodeCandidate | rfid_nadadores.py:233-243 | only an accepted frame with an inventory or buffered command yields a tag or raises, and only a buffered command can raise |
| TagRecords.InventoryRoundTrip | rfid_nadadores.py:97-131 | every inventory record with a non-empty EPC decodes to its EPC, RSSI and antenna |
| TagRecords.BufferRoundTrip | rfid_nadadores.py:133-181 | every buffered record decodes to its EPC, RSSI and antenna; tag count, PC, CRC and read count are ignored |
| TagRecords.InventoryFrameDecodes | rfid_nadadores.py:233-241 | end to end, a frame with an inventory command around an inventory record yields that record's tag |
| TagRecords.BufferFrameDecodes | rfid_nadadores.py:233-243 | end to end, a frame with a buffered command around a buffered record yields that record's tag |
| TagRecords.BufferOverrunFrameRaises | rfid_nadadores.py:152-170 | a buffered frame whose DataLen overruns its payload makes decoding raise |
| TagRecords.OtherCommandsYieldNothing | rfid_nadadores.py:239-243 | a command outside both sets never yields a tag, whatever the payload |
| TagRecords.AntennaRssiOnto | rfid_nadadores.py:121-129 | every antenna 1..8 and every raw RSSI 0..127 is decoded from some FreqAnt and RSSI byte pair |
| FrameAssembly.Extract | rfid_nadadores.py:213-231 | the buffer left is settled: at most one byte, or a header whose frame is incomplete |
| FrameAssembly.ExtractWellFormed | rfid_nadadores.py:213-231 | every candidate sliced off starts with `0xA0` and is exactly its length byte plus 2 long |
| FrameAssembly.SettledIsFixed | rfid_nadadores.py:213-227 | the loop leaves a settled buffer as it is and yields nothing |
| FrameAssembly.ExtractDrop | rfid_nadadores.py:215-217 | a first byte that is not a header is dropped, and nothing else changes |
| FrameAssembly.ExtractEmit | rfid_nadadores.py:223-231 | a complete frame at the front is the first candidate, and the rest is processed after it |
| FrameAssembly.ExtractConcat | rfid_nadadores.py:207-231 | framing `a + b` is framing `a` and then framing its leftover followed by `b` |
| FrameAssembly.NoiseIsDropped | rfid_nadadores.py:213-217 | the loop resynchronises: leading bytes without a header are discarded |
| FrameAssembly.SingleCandidate | rfid_nadadores.py:223-231 | a well-formed frame on its own is one candidate and leaves the buffer empty |
| FrameAssembly.PartialFrameHeld | rfid_nadadores.py:226-227 | any proper prefix of a frame is held in the buffer, unconsumed |
| FrameAssembly.SplitFrameAfterNoise | rfid_nadadores.py:207-231 | a frame split across two reads after noise is held after the first read and emitted whole after the second |
| FrameAssembly.DecodeAll | rfid_nadadores.py:233-249 | a run of candidates yields at most one tag per candidate |
| FrameAssembly.FirstRaisedMeaning | rfid_nadadores.py:230-254 | the position where the loop stops is the first candidate whose decoding raises: none before it raises, and it raises unless no candidate does |
| FrameAssembly.Process | rfid_nadadores.py:213-249 | a pass of the loop that ends without an exception leaves a settled buffer |
| FrameAssembly.ProcessExtract | rfid_nadadores.py:213-254 | the loop hands out the tags of the candidates before the first one that raises; it raises iff some candidate does; otherwise it leaves the buffer that framing alone leaves |
| FrameAssembly.RaisingFrameHidesRest | rfid_nadadores.py:230-254 | after a record that raises, the following bytes stay in the buffer unread |
| FrameAssembly.SessionChunkIndependent | rfid_nadadores.py:196-231 | however the stream is cut into non-empty reads, a session sees the same candidates and ends with the same buffer as one framing of the whole stream |
| FrameAssembly.SessionWithoutRaise | rfid_nadadores.py:196-249 | a session in which nothing raises hands out every candidate's tag, each stamped with its read's instant, and ends with the buffer framing alone leaves |
| FrameAssembly.RFIDReader.constructor | rfid_nadadores.py:37-42 | a new reader holds no bytes |
| FrameAssembly.RFIDReader.ProcessBuffer | rfid_nadadores.py:213-249 | the tags handed out, the buffer left and whether a record raised are those of `Process` on the old buffer |
| FrameAssembly.RFIDReader.Receive | rfid_nadadores.py:203-249 | one read appends the chunk and runs the loop over the whole buffer |
| FrameAssembly.RFIDReader.ReadTagsContinuous | rfid_nadadores.py:183-256 | the tags and final buffer of a whole session, which stops at an empty read or a record that raises, are those of `Session` |
| Competencia.TiempoCarrera | rfid_nadadores.py:273-277 | no elapsed time exactly when no start is set; otherwise start plus elapsed time is the tag's instant |
| Competencia.FirstArrivalsDistinct | rfid_nadadores.py:279-291 | the first-seen list has pairwise distinct EPCs and contains every EPC that was seen |
| Competencia.DuplicateIgnored | rfid_nadadores.py:279-283 | a sighting of an EPC already seen changes nothing |
| Competencia.FirstArrivalsAreEarliest | rfid_nadadores.py:279-291 | each arrival is its EPC's first sighting, and arrivals are ordered by first sighting |
| Competencia.CompetenciaManager.constructor | rfid_nadadores.py:262-266 | a new ledger has no arrivals, next position 1 and no start instant |
| Competencia.CompetenciaManager.IniciarCarrera | rfid_nadadores.py:268-271 | sets (or resets) the start instant and keeps the arrivals |
| Competencia.CompetenciaManager.RegistrarLlegada | rfid_nadadores.py:279-291 | a new EPC is appended at the current position, which then advances by one; a repeated EPC changes nothing; the arrivals stay the first sightings in order |
| Competencia.CompetenciaManager.ObtenerResultados | rfid_nadadores.py:293-305 | one result per arrival, in arrival order: position k+1 and the tag's EPC, instant, elapsed time, RSSI and antenna; the EPCs are pairwise distinct |
| EpcGenerator.CategoriaIndex | generar_epcs.py:89-90 | gives the category's position in the FECNA table, or nothing exactly when the code is not in the table |
| EpcGenerator.DecimalValueBound | generar_epcs.py:105-107 | a run of n decimal digits is below 10^n, so a four-digit year fits in four hex digits |
| EpcGenerator.AnioHex | generar_epcs.py:104-109 | the year field is always four upper-case hex digits |
| EpcGenerator.CalcularChecksum | generar_epcs.py:53-69 | the loop computes `ChecksumSpec`: a length other than 22 is rejected, text that is not ASCII hexadecimal is rejected, otherwise the result is the XOR of the eleven bytes as two upper-case hex digits |
| EpcGenerator.FormatoSinEspacios | generar_epcs.py:71-75 | removing the spaces from the readable form gives back the code without spaces |
| EpcGenerator.FormatoLongitud | generar_epcs.py:71-75 | the readable form adds one space between consecutive pairs |
| EpcGenerator.EpcSinCheckIsHex | generar_epcs.py:98-134 | the code before its checksum is always 22 upper-case hex digits, so the internal length check never fires |
| EpcGenerator.EpcRecordOutcome | generar_epcs.py:77-160 | a request succeeds iff its fields are valid; the first invalid field, in the source's order, is the error; a success carries a 24-digit upper-case hex EPC, the runner number and the event prefix |
| EpcGenerator.HexNumberDefaultYear | generar_epcs.py:109 | the fallback year field `07EA` is 2026 |
| EpcGenerator.HexNumberAnio | generar_epcs.py:104-109 | the year field reads back as the prefix's first four digits when the prefix is all digits and at least four long, and as 2026 otherwise |
| EpcGenerator.XorSelfCheck | generar_epcs.py:63-67 | appending the XOR of a run of bytes makes the XOR of the whole run zero |
| EpcGenerator.EpcChecksumCancels | generar_epcs.py:136-140 | the XOR over all twelve bytes of a complete code is zero |
| EpcGenerator.EpcSlices | generar_epcs.py:98-140 | each field sits at its fixed position in the 24-digit code |
| EpcGenerator.HexNumberDistancia | generar_epcs.py:111-113 | the distance field reads back as the distance code (1, 2, 3, 5, or 0 for anything else) |
| EpcGenerator.EpcFieldValues | generar_epcs.py:104-123 | every field of the code reads back as the value written into it |
| EpcGenerator.EpcRoundTrip | generar_epcs.py:77-160 | decoding a generated code recovers the year, distance code, category number, gender code and runner number, and its checksum verifies |
| EpcGenerator.DistanciaCodigoInjective | generar_epcs.py:111-113 | distinct valid distances have distinct codes |
| EpcGenerator.EpcInjective | generar_epcs.py:77-160 | under one prefix, two valid requests with the same code are the same request |
| EpcGenerator.EpcReadBack | generar_epcs.py:128-140 | a generated code is twelve bytes of hex that print back as the code |
| Distribucion.PutShape | generar_epcs.py:308-313 | dictionary assignment appends a new key at the end, and an existing key keeps its place |
| Distribucion.GetPut | generar_epcs.py:308-313 | after an assignment the key reads the new value and every other key is unchanged |
| Distribucion.PutPut | generar_epcs.py:308-313 | assigning one key twice is assigning the last value |
| Distribucion.DistribuirEnCategorias | generar_epcs.py:296-315 | the loop builds `Distribucion`: zeros for a total of 0 or no categories, otherwise the quotient, plus one for the first `total % n` categories |
| Distribucion.CerosValues | generar_epcs.py:301-302 | the all-zero split gives every category 0 |
| Distribucion.DistribucionShares | generar_epcs.py:304-313 | over distinct categories, category i gets `total // n`, plus one when `i < total % n`, in the given order |
| Distribucion.DistribucionZero | generar_epcs.py:301-302 | a total of 0 gives every category 0 |
| Distribucion.DistribucionSum | generar_epcs.py:296-315 | over distinct, non-empty categories the shares add up to the total |
| Distribucion.DistribucionBounds | generar_epcs.py:304-313 | shares differ by at most one: each is `total // n` or one more |
| Distribucion.SumPosDistribucion | generar_epcs.py:296-315 | the positive shares add up to the total when it is positive, and to 0 otherwise |
| Distribucion.RepeatedCategoryLosesShare | generar_epcs.py:308-313 | `INF_A` listed twice with total 3 keeps one entry of 1: two swimmers are lost |
| Distribucion.CodigosFecna | generar_epcs.py:241 | one code per FECNA category |
| Distribucion.CodigosFecnaDistinct | generar_epcs.py:15-29 | the FECNA codes are distinct and non-empty |
| Distribucion.SumaCantidades | generar_epcs.py:229 | the total exists (no KeyError) exactly when every distance has a count |
| Distribucion.SumarCantidades | generar_epcs.py:229 | the summing loop computes `SumaCantidades` |
| Distribucion.DividirGeneros | generar_epcs.py:246-274 | the gender split computes `Generos` |
| Distribucion.GenerosSplit | generar_epcs.py:246-274 | the split fails exactly when both counts are given and do not add up, or one given count exceeds the distance's total; otherwise F + M is the total, given counts are kept, and the default is `n // 2` and the rest |
| Distribucion.AgregarPositivos | generar_epcs.py:284-287 | the loop appends exactly the positive entries, in order, as groups of that gender |
| Distribucion.PositivosShape | generar_epcs.py:284-287 | every group kept has a positive count and the given gender |
| Distribucion.ConfigurarDistancia | generar_epcs.py:235-292 | one distance's loop body computes `ConfigDistancia` |
| Distribucion.ConfigDistanciaShape | generar_epcs.py:277-292 | a distance's groups all have positive counts and are F or M, with every F group before every M group |
| Distribucion.GruposOrdered | generar_epcs.py:283-287 | the F groups followed by the M groups are positive and gender-ordered |
| Distribucion.ConfigDistanciaCount | generar_epcs.py:277-292 | over valid categories and non-negative counts, a distance's groups add up to its count |
| Distribucion.TodasCategoriasValidas | generar_epcs.py:240-241 | with `usar_todas_categorias` the categories are always valid |
| Distribucion.CollectStop | generar_epcs.py:235-294 | the loop over distances stops at the first distance that raises, and that error is the result |
| Distribucion.ConfigurarDistancias | generar_epcs.py:233-294 | the loop over distances computes `Configs` |
| Distribucion.GenerarDistribucionAutomatica | generar_epcs.py:203-294 | the method computes `DistribucionAutomatica` |
| Distribucion.AutomaticaOutcome | generar_epcs.py:224-294 | no distances, a first distance without a count, and counts not adding up to the total are each rejected; a success has one race per distance, built from that distance's configuration |
| Distribucion.AutomaticaTotal | generar_epcs.py:224-294 | with non-negative counts and valid categories, the groups of all races add up to the requested total |
| Generador.GroupRequests | generar_epcs.py:192 | `range(1, n + 1)` makes n requests, and none when n < 1 |
| Generador.GroupRequestsShape | generar_epcs.py:190-198 | a group's requests number its runners 1, 2, … with its category and gender and the race's distance |
| Generador.RequestsCount | generar_epcs.py:185-199 | a batch makes one request per runner of every group with a positive count |
| Generador.RequestsValid | generar_epcs.py:187-198 | a configuration of valid groups makes only valid requests |
| Generador.RunAllStops | generar_epcs.py:187-199 | once a request raises, nothing later is generated |
| Generador.BatchTags | generar_epcs.py:185-201 | a batch without an error returns one record per request, in order, each the one `generar_epc` gives for that request |
| Generador.BatchSucceeds | generar_epcs.py:162-201 | a valid configuration never raises and yields as many codes as it requests |
| Generador.BatchEpcsIdentifyRequests | generar_epcs.py:162-201 | two codes of a successful batch are equal iff their requests are equal |
| Generador.PeticionEpcInjective | generar_epcs.py:77-160 | two successful requests under one prefix share a code iff they are the same request |
| Generador.RepeatedGroupRepeatsEpc | generar_epcs.py:187-199 | a group listed twice in one race yields the same code twice |
| Generador.DistributionBatchSize | generar_epcs.py:203-294 | generating the batch for an automatic distribution yields exactly the requested total of codes |
| Generador.EPCGenerator.constructor | generar_epcs.py:45-51 | a new generator keeps its event prefix and has generated nothing |
| Generador.EPCGenerator.GenerarEpc | generar_epcs.py:77-160 | returns what `EpcRecord` gives, and appends the record to the generated list exactly on success |
| Generador.EPCGenerator.GenerarGrupo | generar_epcs.py:190-199 | one group's loop yields the records of its requests up to the first error, and the generator keeps those records |
| Generador.EPCGenerator.GenerarCarrera | generar_epcs.py:187-199 | one race's loop yields the records of its requests up to the first error, and the generator keeps those records |
| Generador.EPCGenerator.GenerarLoteCarreras | generar_epcs.py:162-201 | succeeds iff no request raises, returning every record in order; on an error the generator has still kept every record made before it |
| Cruce.NormalizarEpc | cruzar_resultados.py:16-18 | the normal form of a missing value is empty, and a normal form holds no space and no lower-case ASCII letter |
| Cruce.NormalizarIdempotente | cruzar_resultados.py:16-18 | normalising twice is normalising once |
| Cruce.NormalizarVacio | cruzar_resultados.py:16-18 | the normal form is empty exactly when the text is all whitespace |
| Cruce.NormalizarFormato | cruzar_resultados.py:66-67 | the roster's readable `epc_formateado` and the bare code both normalise to the code, so results match the roster |
| Cruce.PrimeroNoVacio | cruzar_resultados.py:30-31 | `a or b` is empty exactly when both are |
| Cruce.IndiceClaves | cruzar_resultados.py:64-77 | a key is in the index iff some row gives that key |
| Cruce.IndiceUltimo | cruzar_resultados.py:64-77 | a key maps to the value from the last row that gives it |
| Cruce.IndiceVacio | cruzar_resultados.py:79-80 | the index is empty exactly when no row gives a key |
| Cruce.CargarNombresPorEpc | cruzar_resultados.py:21-37 | the loop computes `NombresPorEpc`: empty for a missing file or one without a header |
| Cruce.NombresClaves | cruzar_resultados.py:29-34 | a key is in the names index iff some row has a non-empty normalised EPC and a non-empty name; keys are non-empty and already normalised |
| Cruce.NombresUltimo | cruzar_resultados.py:29-34 | a key maps to the stripped name of the last row with that EPC |
| Cruce.ConstruirLookup | cruzar_resultados.py:64-77 | the roster loop computes the index keyed by normalised `epc_formateado` |
| Cruce.ParsearResultados | cruzar_resultados.py:88-100 | the results loop computes `Parsear` |
| Cruce.ParsearConcat | cruzar_resultados.py:92-100 | the data rows of concatenated input are the data rows of each part |
| Cruce.ParsearFila | cruzar_resultados.py:93-100 | one row is kept iff it is non-empty and neither the start row nor the header; a start row gives its second field, or nothing |
| Cruce.ParsearDatos | cruzar_resultados.py:92-100 | every kept row is a data row, and there are no more kept rows than input rows |
| Cruce.InicioUltimo | cruzar_resultados.py:95-96 | the start instant comes from the last start row |
| Cruce.InicioAusente | cruzar_resultados.py:89-97 | without a start row there is no start instant |
| Cruce.FilaSalida | cruzar_resultados.py:113-136 | 13 columns: position and EPC as read, then the columns 2..5 of the row in their place; the name comes from the names file first, then the roster; roster fields are empty for an unknown EPC |
| Cruce.CruzarFilas | cruzar_resultados.py:110-136 | the join loop computes `Salida` |
| Cruce.SalidaConcat | cruzar_resultados.py:110-136 | the join is row by row |
| Cruce.SalidaFila | cruzar_resultados.py:110-113 | a row is joined iff it has at least two fields, and it keeps its position and EPC |
| Cruce.SalidaAnchos | cruzar_resultados.py:103-136 | every joined row has the header's 13 columns |
| Cruce.UnionConEpcGenerado | cruzar_resultados.py:119-129 | a result for a code whose readable form is in the roster gets that roster row's runner number, category, gender and distance |
| Cruce.EpcDesconocido | cruzar_resultados.py:119-136 | a result for a code not in the roster gets empty roster fields and a name only from the names file |
| Cruce.CruzarResultados | cruzar_resultados.py:40-144 | the whole run computes `Cruce` |
| Cruce.CruceFalla | cruzar_resultados.py:51-86 | the run fails exactly when the roster is missing, has no header, gives no non-empty key, or the results file is missing |
| Cruce.CruceSalida | cruzar_resultados.py:138-142 | the output is the optional start row, the header, then the joined rows, each 13 wide and none taken for a start row |

## Left out

- Socket I/O (`connect`, `disconnect`, `socket.send`, `recv`, timeouts), the `duration` clock check and `KeyboardInterrupt` are not modelled (rfid_nadadores.py:44-60, 189-211, 251-252). The byte stream is a sequence of chunks, and an empty chunk ends the session.
- `datetime.now()` is not modelled: each read's capture instant is an integer in milliseconds. Elapsed time is an integer difference rather than float `total_seconds()`, and the result's `timestamp` is that integer rather than an ISO string.
- The `callback` of `read_tags_continuous` is not modelled: the session returns the tags it would have passed, in order.
- Printing, `strftime` and `__repr__` are left out: they have no effect on state.
- `guardar_resultados` (rfid_nadadores.py:307-335) is left out: it writes a file.
- The `__main__` blocks and the exports and prompts of generar_epcs.py (317-854) are left out: they do I/O.
- The CSV text format (quoting, encodings), opening, reading and writing of files are not modelled. A file is its parsed rows, or `None` when it is missing.
- Cruce.CruzarResultados: a `nombres_csv` given as an empty path is the same as a missing names file (both give no names).
- Rows shorter than the header are not modelled. `csv.DictReader` fills them with `None`, where `.strip()` would raise. A `Fila` maps each column to text, and a missing column reads as "".
- Cruce.NormalizarEpc: `upper()` is modelled on ASCII letters only. Python also upper-cases other letters, and some of them become longer.
- EpcGenerator.AnioHex: `str.isdigit` and `int` are modelled on ASCII digits only. Python also accepts other Unicode decimal digits.
- EpcGenerator.CalcularChecksum: slices are read as ASCII hexadecimal digits only. `int(s, 16)` also accepts other Unicode decimal digits (`"٣F"` reads as 0x3F), a sign and surrounding whitespace (`"+F"`, `" F"`); all of these are rejected as non-hex here. `generar_epc` never produces such slices.
- Hex.HexFixed: keeps only the last `w` digits of a number that needs more. Python's format widens instead. Every call site keeps the number below 16^w: a year of at most four decimal digits, category 1..12, runner 1..999.
- Frames.BuildFrame: when `struct.pack('B')` is given a length over 255 it raises `struct.error`. Here that case is `None`.
- Distribucion.AutomaticaOutcome: a distance missing the `distancia` key, and values of types other than integers (floats, strings), are not modelled: `DistanciaConfig` always has a distance and integer counts. A missing `cantidad` is modelled, as the ValueError on the first distance and the KeyError on later ones.
- Generador.EPCGenerator.GenerarLoteCarreras: the `distancia` KeyError and tuple-unpacking errors of malformed configurations are not modelled, because `Carrera` and `Grupo` are always complete.
